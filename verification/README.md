# A verified model of liblw

Dafny models of the parts of liblw with the most state and branching, and proofs about them. They
check with `dafny verify dfyconfig.toml` (Dafny 4.11).

The models keep the form of the code: what updates fields in place is a class, what loops is a
method with a loop, and each such method is proved to compute a function that says what it is
meant to compute. The lemmas are about those functions, for all inputs and all runs.

| files | what they model |
|---|---|
| `PathMatchers`, `RouteParser`, `RouteRules` | route texts, their matchers, and matching a path against one route |
| `TrieSearch`, `TrieInsert`, `TrieRoutes`, `EndpointTrie` | the endpoint trie: its search order, what insertions keep, its agreement with the routes, and the linked nodes with the backtracking walk |
| `ResourceProtocol`, `ResourceProgress`, `ServerResource` | the construction of a request's resources as steps between suspensions, taken in any order |
| `CircularQueue`, `EventLoop`, `Scheduler` | the ring buffer, and the loop with its queue, its one-shot wake-up and its callbacks |
| `Promises` | promise states and the chains that returned futures form |
| `JsonText`, `JsonFormatter`, `JsonGrammar` | JSON values, their tokens and text, the formatter that the serializer drives, and the grammar of RFC 8259 |
| `JsonParsing`, `JsonParser`, `JsonDescent` | the parser as functions and as it runs, what it accepts, and its stack machine as a recursive descent |
| `JsonRoundTrip`, `JsonLayout`, `JsonFaithful`, `JsonCounts` | parsing what was printed |
| `StreamScan`, `CoReader` | the delimiter scanner, and the buffered reader over a source of its own pace |
| `CaseInsensitive`, `HttpHead` | header names and their map, and the head of a request |
| `Base64` | blocks of base64, their decoder, and the iterator |
| `FlagText`, `Chars`, `Wrappers` | text forms of flags, characters and numbers, result types |

## What the models take as given

- Trie: a route has at least one matcher, and its parameter names differ ignoring case. A route's own
  matcher and the search are modelled on every path; where the two are compared, the path starts
  with `/` and has no empty segment. A regular expression is a predicate on whole segments.
- Resources: between two suspensions a call runs alone; any call that can go on may be next. A
  factory may finish at any later time, or throw.
- Event loop: one thread. What a resumed coroutine does, whether an exception leaves it, and which
  handles epoll reports are arbitrary; epoll reports a handle only while its callback is
  registered, and the eventfd only while its counter is positive. Coroutines do not watch the
  loop's own eventfd.
- Promises: one thread; a future is returned by at most one coroutine, and never so that a chain
  would close on itself.
- JSON: numbers are integers in decimal; the text is read as if a NUL followed its last character
  (lw/mime/json.cpp:783 looks one character past a keyword).
- Reader: buffer sizes are positive, unset windows are empty at offset 0, and the source hands over
  at least one byte while it is good.
- Integers are unbounded where the code's cannot overflow; where they can, the width is modelled:
  32 bits in the name comparator, 64 bits in durations, content lengths and integer getters.

## Findings

Properties one would expect that the code does not have, each with the exact condition under which
it does.

- A path that one of the inserted routes accepts may get no answer. A path is answered exactly when
  the first node it spells has an endpoint (`TrieRoutes.AnswersIff`): the walk does not go back from
  a node without one. "/a/b" and "/:x" hide "/:x" from "/a" (`RouteRules.HiddenRouteArises`); more
  generally every literal node without an endpoint hides the wildcard routes for its path
  (`TrieRoutes.LiteralNodeHides`).
- A route with a file extension is never answered (`TrieRoutes.ExtensionNeverAnswered`): "/:x.json"
  accepts "/a.json" when asked alone, but not from the trie (`RouteRules.ExtensionRefused`).
- A route's own matcher reads a view without a start exactly when the matchers before take all parts
  of the path before an empty one, and another matcher follows (`PathMatchers.UnsetViewIff`): "/a/"
  against "/a/:x" is one such (`PathMatchers.SeparatorAtEnd`).
- The parameters of an answer may hold names that its route does not have: a name is there exactly
  when the path reads through a wildcard of that name that does not come after the node found
  (`TrieRoutes.ParametersIff`). "/a/:x" leaves its parameter in the answer of "/:y/c/d" to "/a/c/d"
  (`RouteRules.AbandonedParameter`).
- An int parameter takes digits after at most one minus sign, and so also a minus sign alone
  (`PathMatchers.ParameterMatchIff`, `PathMatchers.LoneMinus`).
- A parameter's type also holds for the parameters after it: a type is in force exactly when the
  parameter or an earlier one has one (`RouteRules.TypeInForceIff`, `RouteRules.TypeLeaks`).
- A failed factory leaves its tag: no call for that type ever returns afterwards
  (`ResourceProgress.FailureIsFinal`). In every run that has come to an end, the calls that have
  returned are exactly those for types whose dependency chains all end, in registered types whose
  factories have not thrown (`ResourceProgress.AnsweredIffBuildable`); the others have failed or
  wait for ever (`ResourceProgress.SecondCallWaits`).
- A wake-up can be lost. A drain leaves coroutines without one exactly when, of those queued but the
  last, one throws, and neither it nor one before does anything but wait for handles
  (`EventLoop.DrainStrandsIff`, `EventLoop.StrandedRun`). A full queue is a cause: the exception of
  lw/memory/circular_queue.h:94 can leave a coroutine that sets a promise.
- Serializing throws for a list directly inside an object or an object directly inside a list, and
  only then (`JsonFormatters.SerializesIffUniform`, `JsonFormatters.ListInObjectThrows`): ended
  frames are not popped.
- What the formatter writes is in the grammar of RFC 8259, and then denotes the value, exactly when
  every control character in its strings and keys is one of the five with an escape of two
  characters; the others are written as they are (`JsonGrammar.CanonicalDenotesIff`,
  `JsonGrammar.RawControl`).
- A second scalar on the same formatter is refused, except after a list, whose ended frame takes it
  (`JsonFormatters.SecondValueIff`).
- Parsing a printed value gives it back exactly when no string has a quotation mark, no key has a
  character to escape, and no object has a key twice (`JsonCounts.ParsesBackIff`,
  `JsonCounts.QuotationMarkIsLost`).
- Commas are free: a document parses exactly when its tokens are a value of the grammar in which
  commas may stand anywhere in a list, and between the members of an object, and none need to
  (`JsonDescent.ParsesIff`, `JsonDescent.CommasAreFree`).
- The numbers that are read are those of section 6 of RFC 8259 without an exponent, and those with a
  plus sign (`JsonParsing.LexNumberIff`, `JsonDescent.PlusIsRead`, `JsonDescent.ExponentIsRefused`).
- The parser reads the top of an empty stack exactly for documents that start, after white space,
  with a closing bracket, a closing brace or a comma (`JsonParsing.ReachableErrors`,
  `JsonParsing.ReadsTopOfEmpty`).
- `read_until("\r\n\r\n")` passes over the blank lines before which an odd number of CRs stands, and
  stops at the first other one (`StreamScan.BlankLineFoundIff`, `StreamScan.PassesOverOne`).
- When the stream is shorter than the limit, not empty, and has no blank line but such, `read_until`
  reads a byte behind its window, and only then; when it is not shorter, and none but such ends
  within the limit, it returns nothing (`StreamScan.UntilBlankLine`, `StreamScan.ReadsPastWindow`;
  for any delimiter `StreamScan.UntilNothing`).
- The name comparator is no strict weak order on all strings: two names are each less than the
  other exactly when one continues the other and their lengths differ by 2^31 modulo 2^32
  (`CaseInsensitive.BothLessIff`, `CaseInsensitive.LongNameBothLess`).
- The query of a request line goes to its parser with the blank behind it
  (`HttpHead.QueryStartComesBackIff`).
- White space at the end of a header value stays part of the value, against section 5.5 of RFC 9110;
  `HttpHead.LineComesBackIff` therefore holds for values that end in it.

## Model

| member | source | states |
|---|---|---|
| PathMatchers.Match | lw/http/internal/http_mount_path.cpp:45-141 | a matcher captures a prefix of the segment, and the whole of it unless it has a file extension |
| PathMatchers.ParameterMatchIff | lw/http/internal/http_mount_path.cpp:60-141 | a parameter captures what is left before its extension, ignoring case, if it is not empty and is what the type takes: anything, digits, or digits after at most one minus sign |
| PathMatchers.LoneMinus | lw/http/internal/http_mount_path.cpp:131-134 | an int parameter takes "-" |
| PathMatchers.LiteralMatchIff | lw/http/internal/http_mount_path.cpp:45-51 | a literal takes exactly the segments equal to it but for the case of letters |
| PathMatchers.PatternMatchIff | lw/http/internal/http_mount_path.cpp:165-175 | a pattern takes the whole segment or nothing |
| PathMatchers.MountPath.MatchPath | lw/http/internal/http_mount_path.cpp:405-434 | on every path the loop does what its function says; without empty segments that is the segment-by-segment match of the route: each matcher takes its segment or the route is refused, and every matcher and segment is used |
| PathMatchers.MatchIsPartMatch | lw/http/internal/http_mount_path.cpp:405-434 | on any path the loop matches the parts between separators one for one; one separator may follow the last |
| PathMatchers.MatchIsMountMatch | lw/http/internal/http_mount_path.cpp:405-434 | on a path without empty segments the loop accepts exactly when the matchers take the segments one for one, with the same values |
| PathMatchers.UnsetViewIff | lw/http/internal/http_mount_path.cpp:416-418 | a view without a start is read exactly when the matchers so far took all parts of the path before an empty one and another is left |
| PathMatchers.SeparatorAtEnd | lw/http/internal/http_mount_path.cpp:416-418 | "/a/" is accepted by "/a", while "/a/:x" reads an unset view for it |
| RouteParser.ParseIntoMatchers | lw/http/internal/http_mount_path.cpp:192-395 | the character machine succeeds exactly when the route can be read chunk by chunk, and then gives that reading |
| RouteRules.ReadRouteIff | lw/http/internal/http_mount_path.cpp:192-395 | a route is readable exactly when, but for empty chunks, it is written from literals and from parameters with an alphanumeric name, perhaps an extension, and perhaps int or uint as their type; and it is read as those, each with the type in force |
| RouteRules.ParsedRouteValid | lw/http/internal/http_mount_path.cpp:192-395 | a parsed route with distinct names is one the trie can hold: its matchers depend on nothing but its own chunks so far |
| RouteRules.TypeInForceIff | lw/http/internal/http_mount_path.cpp:232-249 | a parameter is validated exactly when it or some earlier parameter of its route has a type: the type is never reset |
| RouteRules.TypeLeaks | lw/http/internal/http_mount_path.cpp:232-249 | the second parameter of "/:[int]a/:b" takes digits only, the one of "/:b" anything |
| TrieSearch.ExploreFindsFirst | lw/http/internal/http_mount_path.cpp:436-491 | the recursive search returns the first word, literal edges before wildcards, that spells the path, and none only when no word does |
| TrieSearch.ExploreKeeps | lw/http/internal/http_mount_path.cpp:452-482 | a parameter that no wildcard below a node writes keeps its value through the search of that node, found or not |
| TrieSearch.ExploreCaptures | lw/http/internal/http_mount_path.cpp:452-482 | every wildcard above the returned node has its own capture in the result, whatever abandoned branches wrote |
| EndpointTries.EndpointTrie.WalkPath | lw/http/internal/http_mount_path.cpp:436-491 | the loop with its wildcard stack, over linked nodes, returns what the recursive search returns, and visits no node twice |
| EndpointTries.EndpointTrie.MatchPath | lw/http/internal/http_mount_path.h:98-107 | the answer is the endpoint of the node found with the captured parameters, or none |
| TrieRoutes.TrieAgreesWithRoute | lw/http/internal/http_mount_path.cpp:405-491 | when the trie answers with a route, that route's own matcher accepts the path and gives every parameter of the route the same value |
| TrieRoutes.ParametersIff | lw/http/internal/http_mount_path.cpp:463-476 | the parameters returned have exactly the names of the wildcards the path reads through that do not come after the node found, also of abandoned branches |
| RouteRules.AbandonedParameter | lw/http/internal/http_mount_path.cpp:463-476 | with "/a/:x" and "/:y/c/d" inserted, "/a/c/d" is answered by the second with a parameter x |
| TrieRoutes.AnswersWithAnInsertedRoute | lw/http/internal/http_mount_path.h:81-107 | after any successful insertions into an empty trie, an answer is the endpoint of one of the inserted routes, whose own matcher accepts the path with the same values |
| TrieRoutes.RouteAccepts | lw/http/internal/http_mount_path.cpp:405-434 | a route whose word the path spells accepts the path, with the values captured along the word |
| TrieRoutes.RouteSpellsIff | lw/http/internal/http_mount_path.cpp:436-491 | a path spells the word of a route exactly when the route's matchers take the path's segments whole, literals case-sensitively |
| TrieRoutes.ReturnedIffFirst | lw/http/internal/http_mount_path.cpp:436-491 | a node is returned exactly when the path spells it and no other spelled node precedes it |
| TrieRoutes.SpelledCompare | lw/http/internal/http_mount_path.cpp:443-482 | of two nodes that spell a path one precedes the other, by the edges at which they part |
| TrieSearch.PrecedesAsymmetric | lw/http/internal/http_mount_path.cpp:443-482 | no two nodes precede each other |
| TrieRoutes.AnswersIff | lw/http/internal/http_mount_path.h:98-107 | a path is answered exactly when the first node it spells has an endpoint |
| TrieRoutes.LiteralRouteWins | lw/http/internal/http_mount_path.cpp:443-482 | an all-literal route that was inserted is what its own path finds, whatever wildcards the trie holds |
| TrieRoutes.LiteralNodeHides | lw/http/internal/http_mount_path.cpp:484-490 | where the literal node of a path has no endpoint, no wildcard route is answered for that path |
| TrieRoutes.HiddenRoute | lw/http/internal/http_mount_path.cpp:484-490 | with "/a/b" and "/:x" in a trie without "/a", "/a" gets no answer though "/:x" accepts it |
| RouteRules.HiddenRouteArises | lw/http/internal/http_mount_path.cpp:484-490 | that trie arises from inserting the two routes into an empty one |
| TrieRoutes.ExtensionNeverAnswered | lw/http/internal/http_mount_path.cpp:478 | a route with a file extension on a parameter is never the answer |
| TrieRoutes.OnlyExtensions | lw/http/internal/http_mount_path.cpp:478 | when all inserted routes have a file extension, no path gets an answer |
| RouteRules.ExtensionRefused | lw/http/internal/http_mount_path.cpp:478 | "/:x.json" accepts "/a.json" when asked alone; inserted, it is not answered |
| TrieRoutes.InsertionServes | lw/http/internal/http_mount_path.h:81-96 | an insertion keeps the trie sound, loses no node, and sets the endpoint it was asked for or none |
| TrieRoutes.InsertionErrorIff | lw/http/internal/http_mount_path.h:81-96 | which error an insertion ends with, or none, by the trie before it: a collision exactly when a separator along the route carries another parameter, an existing or colliding route exactly when the route's node has an endpoint |
| TrieRoutes.RefusedChangesNothing | lw/http/internal/http_mount_path.h:81-96 | a refused insertion leaves the trie as it was |
| TrieRoutes.EveryInsertedRouteStays | lw/http/internal/http_mount_path.h:81-96 | after any successful insertions each of the routes, those there before and those inserted, still has its nodes, its matchers and its endpoint |
| TrieRoutes.EndpointsComeWithRoutes | lw/http/internal/http_mount_path.h:81-96 | after any successful insertions every endpoint was there before or came with one of them, at the word of its route |
| TrieInsert.BuildHealthy | lw/http/internal/http_mount_path.cpp:493-517 | building a path, also one that collides, changes nothing that was there and lays the route's own word |
| EndpointTries.EndpointTrie.BuildLiteralPath | lw/http/internal/http_mount_path.cpp:519-530 | the linked nodes become the trie with the characters added, and the last one is returned |
| EndpointTries.EndpointTrie.BuildPath | lw/http/internal/http_mount_path.cpp:493-517 | the linked nodes become the trie the insertion builds; a collision of parameters is reported exactly when there is one |
| EndpointTries.EndpointTrie.Insert | lw/http/internal/http_mount_path.h:81-96 | the linked nodes become the trie after the insertion, with the same error or none, which is refused exactly in the cases of InsertionErrorIff; nodes are only gained, and only new ones |
| ResourceProtocol.StepKeeps | lw/net/server_resource.h:310-332 | every step keeps the tags, waiters, stored objects and factory calls consistent, and takes nothing back |
| ResourceProgress.OneObjectPerType | lw/net/server_resource.h:310-332 | two calls, at any two points of a run, got the same object exactly when they asked for the same type |
| ResourceProgress.RequestGetsItsType | lw/net/server_resource.h:310-331 | a call stays one for the type it was requested for, and returns the object that type's factory made |
| ResourceProgress.AwaitsInOrder | lw/co/future.h:372-376 | while a dependency has neither returned nor failed, those after it do not move the call |
| ResourceProgress.BuiltAtMostOnce | lw/net/server_resource.h:310-332 | no factory is called twice, even when factories throw; a type is never both tagged and stored; each factory got the stored objects of its dependencies |
| ResourceProgress.WokenExactlyByStore | lw/net/server_resource.h:315-328 | a waiting call is moved by exactly one step, the store of its type, which wakes all of them |
| ResourceProgress.AnsweredIffBuildable | lw/net/server_resource.h:173-187 | when nothing is left to do, a call has returned exactly when all dependency chains of its type end, in registered types whose factories did not throw |
| ResourceProgress.NeverStuck | lw/net/server_resource.h:173-187 | without cycles and unregistered types some step is enabled while any call is unfinished |
| ResourceProgress.EverythingBuildableIffAcyclic | lw/net/server_resource.h:173-187 | all types can be built exactly when the dependency graph has a ranking |
| ResourceProgress.RunsAreShort | lw/net/server_resource.h:310-332 | however the calls interleave, a run takes at most four steps for each request and three for each dependency |
| ResourceProgress.FailureIsFinal | lw/net/server_resource.h:324-328 | once the call that builds a type has failed, no call for that type ever returns or wakes |
| ResourceProgress.SecondCallWaits | lw/net/server_resource.h:315-328 | a factory throws while a second call for its type waits: no step is left, and the second call waits for ever |
| ServerResources.ServerResourceContext.Request | lw/net/server_resource.h:310-312 | a new call for the type asked for, not yet begun |
| ServerResources.ServerResourceContext.Begin | lw/net/server_resource.h:310-325 | up to its first suspension a call returns the stored object, queues itself, or tags the type and calls for the dependencies |
| ServerResources.ServerResourceContext.Collect | lw/co/future.h:372-376 | the results are handed over in the order of the dependencies |
| ServerResources.ServerResourceContext.Invoke | lw/net/server_resource.h:179-186 | the factory is called with the objects of the dependencies |
| ServerResources.ServerResourceContext.Store | lw/net/server_resource.h:325-328 | the object is stored, every waiter of the type woken, and the tag dropped |
| ServerResources.ServerResourceContext.Resume | lw/net/server_resource.h:331 | a woken call finds the object stored and returns it |
| CircularQueues.RingPush | lw/memory/circular_queue.h:81-90 | writing the slot behind the last value adds a value at the end, also around the end of the buffer |
| CircularQueues.RingPop | lw/memory/circular_queue.h:67-75 | advancing the tail drops the first value |
| CircularQueues.CircularQueue.NextIndex | lw/memory/circular_queue.h:106-108 | the next slot, or the first one after the last |
| CircularQueues.CircularQueue.TryPushBack | lw/memory/circular_queue.h:81-90 | a full queue refuses the value; otherwise it stands behind all the others |
| CircularQueues.CircularQueue.PopFront | lw/memory/circular_queue.h:67-75 | the oldest value leaves; an empty queue has none |
| EventLoop.QueueIsFaithful | lw/co/scheduler.cpp:134-151 | in every history, also with exceptions: resumed then queued coroutines are those pushed, in order; the drain is registered exactly while the eventfd is readable; each one-shot wait ends once; the loop itself never fails |
| EventLoop.NoLostWakeUp | lw/co/scheduler.cpp:117-156 | without escaping exceptions, a non-empty queue always has its wake-up coming |
| EventLoop.DrainResumesExactly | lw/co/scheduler.cpp:143-151 | a drain resumes the coroutines queued when it began, in order and no others, up to the first that throws |
| EventLoop.DrainStrandsIff | lw/co/systems/epoll.cpp:119-134 | a drain leaves coroutines without a wake-up exactly when, of those queued but the last, one throws, and neither it nor one before does anything but wait for handles |
| EventLoop.ScheduleUnstrands | lw/co/scheduler.cpp:134-156 | the next accepted coroutine wakes the loop for them too, and the drain it causes resumes them all |
| EventLoop.StrandedRun | lw/co/systems/epoll.cpp:119-134 | two coroutines of which the first throws: the next run returns with the second still queued |
| EventLoop.DispatchKeeps | lw/co/systems/epoll.cpp:113-135 | every reported handle still has its callback when its turn comes, and the eventfd is never read in vain |
| EventLoop.RunFinishesEverything | lw/co/scheduler.cpp:117-127 | a run that returns with polling on has resumed everything scheduled and ended every wait |
| EventLoop.PollingIff | lw/co/scheduler.cpp:129-132 | a run ends with polling on exactly when none of the coroutines it resumed called stop before an exception |
| EventLoop.RunGoesOnIff | lw/co/scheduler.cpp:117-127 | after any number of rounds the run waits for the next exactly when it was not stopped, no exception ended it and a callback is left |
| EventLoop.WatchFires | lw/co/scheduler.cpp:109-115 | an accepted wait fires; a one-shot one is over then, another one stays |
| EventLoop.RecurringWaitsStay | lw/co/systems/epoll.cpp:119-134 | in every history a wait that is not one-shot stays registered |
| EventLoop.ResumptionsCounted | lw/co/systems/epoll.cpp:113-135 | a wait that no exception ends resumes one coroutine for each reported handle and one for each that left the queue |
| Schedulers.EPoll.Add | lw/co/systems/epoll.cpp:50-67 | a handle with a callback refuses a second one |
| Schedulers.EPoll.Remove | lw/co/systems/epoll.cpp:69-77 | the callback is gone; there was one or the call fails |
| Schedulers.Scheduler.AddToQueue | lw/co/scheduler.cpp:134-137 | an accepted coroutine stands last in the queue and the drain is asked for |
| Schedulers.Scheduler.ScheduleQueueDrain | lw/co/scheduler.cpp:139-156 | the drain is registered once and the eventfd pinged |
| Schedulers.Scheduler.StopPolling | lw/co/scheduler.cpp:129-132 | polling is off and the loop is woken; what that ends is said by PollingIff and RunGoesOnIff |
| Schedulers.Scheduler.DrainQueue | lw/co/scheduler.cpp:143-151 | the eventfd is read, then as many coroutines resumed as were queued |
| Schedulers.Scheduler.Fire | lw/co/systems/epoll.cpp:119-134 | a one-shot callback is removed before it is called |
| Schedulers.Scheduler.WaitOnce | lw/co/systems/epoll.cpp:113-135 | the reported handles are served in turn until an exception |
| Schedulers.Scheduler.Run | lw/co/scheduler.cpp:117-127 | waits follow one another while polling is on and callbacks are left |
| Promises.ExtendedEnd | lw/co/future.h:205-219 | linking a chain moves its end to the end of the other, and leaves chains that end elsewhere alone |
| Promises.Thread.GetState | lw/co/future.h:248-252 | the walk ends at the last state of the chain |
| Promises.Thread.Set | lw/co/future.h:228-246 | the first set through a chain writes its last state and schedules its awaiter once if one is suspended; a second one throws and changes nothing |
| Promises.Thread.ReturnFuture | lw/co/future.h:205-219 | a set future passes its outcome on; an unset one, with every chain that ends in it, goes on to the returning promise |
| Promises.Thread.Await | lw/co/future.h:55-77 | a set future is ready; otherwise the coroutine is recorded as suspended |
| Promises.Thread.AwaitResume | lw/co/future.h:94-117 | what was set through the chain is what its first future gives |
| JsonText.DecodeQuote | lw/mime/json.cpp:210-302 | decoding inverts the printer's escapes for every string |
| JsonGrammar.EscapeIff | lw/mime/json.cpp:210-227 | the escaped text of a string is the one text in which the eight characters with an escape, and no others, have it |
| JsonGrammar.DecodeDenoted | lw/mime/json.cpp:262-302 | a string of the grammar, without escapes by number, decodes to what it denotes |
| JsonGrammar.EscapeByNumberLost | lw/mime/json.cpp:263 | the escape of "A" by number decodes to "0041" |
| JsonFormatters.WriteControl | lw/mime/json.cpp:83-192 | from any place for a value, serializing throws exactly when the value is not uniform, and otherwise the next element or the end of the pair is accepted |
| JsonFormatters.WriteText | lw/mime/json.cpp:83-226 | what is written is the comma that is due and the canonical text |
| JsonFormatters.SerializesIffUniform | lw/mime/json.cpp:83-147 | serializing completes exactly when no list is nested directly with an object, in either order, and gives the canonical text |
| JsonGrammar.CanonicalDenotesIff | lw/mime/json.cpp:210-227 | the canonical text is in the grammar of RFC 8259, and denotes the value, exactly when its control characters all have an escape of two characters |
| JsonGrammar.SerializesToJson | lw/mime/json.cpp:32-226 | serializing completes with a JSON text for the value exactly when the value is uniform and its control characters have such escapes |
| JsonGrammar.RawControl | lw/mime/json.cpp:225 | U+0001 is written as it is |
| JsonFormatters.SecondValueIff | lw/mime/json.cpp:166-192 | a second scalar on the formatter is refused exactly when the first value was no list |
| JsonFormatters.ListInObjectThrows | lw/mime/json.cpp:90-113 | a list as a member of an object throws |
| JsonFormatters.JSONSerializationFormatter.PutQuoted | lw/mime/json.cpp:73-81 | the string is written escaped, as a key or as a value; what is written is said by EscapeIff |
| JsonFormatters.JSONSerializationFormatter.NoteValue | lw/mime/json.cpp:166-192 | the state after a value, by the state before it |
| JsonFormatters.JSONSerializationFormatter.CloseList | lw/mime/json.cpp:90-97 | a list that is ended leaves its frame, now with a value in it |
| JsonFormatters.JSONSerializationFormatter.CloseObject | lw/mime/json.cpp:106-113 | an object that is ended leaves its frame, now with a value in it |
| JsonFormatters.Serializer.WriteValue | lw/io/serializer/serializer.h:154-173 | the calls made for a value, up to the first that throws |
| JsonFormatters.Serializer.WriteObject | lw/io/serializer/serializer.h:193-200 | key, colon, value and end of pair for each member in turn |
| JsonParsing.FindQuote | lw/mime/json.cpp:746-756 | a string ends at the first quotation mark, escaped or not |
| JsonParsing.LexNumberIff | lw/mime/json.cpp:791-831 | a number is read exactly when a numeral, with an optional sign, no leading zero and at most one point between digits, stands there and neither a digit nor a point follows |
| JsonParsing.LexIff | lw/mime/json.cpp:647-831 | a token is read exactly when it stands there and is not part of something longer |
| JsonParsing.RunKeepsShape | lw/mime/json.cpp:647-743 | every reachable stack has each scalar as a string right above an object and each colon right above such a key |
| JsonParsing.ReachableErrors | lw/mime/json.cpp:833-896 | the stray-colon, pair-outside-object, key-not-scalar and malformed-document errors never arise; the top of an empty stack is read exactly for documents that start with a closing character or a comma |
| JsonParsing.ReadsTopOfEmpty | lw/mime/json.cpp:668-743 | for "]" the parser reads the top of an empty stack |
| JsonDescent.TokensParseIff | lw/mime/json.cpp:833-896 | the stack machine gives a node for a list of tokens exactly when the recursive descent takes all of it, and then the same node |
| JsonDescent.ParsesIff | lw/mime/json.cpp:647-896 | a document parses exactly when it is tokens and white space and its tokens are one value of the grammar in which commas are free |
| JsonDescent.CommasAreFree | lw/mime/json.cpp:695-702 | "[,1 1]" parses as a list of two |
| JsonDescent.PlusIsRead | lw/mime/json.cpp:794 | "+1" is read as a number |
| JsonDescent.ExponentIsRefused | lw/mime/json.cpp:810-820 | "1e5" is refused |
| JsonRoundTrip.ValueRuns | lw/mime/json.cpp:833-877 | on any stack the tokens of a value complete exactly its node, or stop at a key repeated in one object |
| JsonLayout.LayoutRuns | lw/mime/json.cpp:647-743 | a text with any white space between its tokens is read as those tokens |
| JsonFaithful.IntegerGetters | lw/mime/json.cpp:352-393 | the integer getters return the number exactly when it fits their type |
| JsonFaithful.GettersRead | lw/mime/json.cpp:352-393 | the getters of any integer token, with either sign or none, by its number; the unsigned one refuses a minus sign |
| JsonCounts.ParseConserves | lw/mime/json.cpp:647-877 | every document that parses has two quotation marks for each string of the result |
| JsonCounts.ParsesBackIff | lw/mime/json.cpp:647-877 | the printed tokens of a value, spaced in any way, parse back to it exactly when its strings have no quotation mark, its keys nothing to escape, and no object a key twice |
| JsonCounts.QuotationMarkIsLost | lw/mime/json.cpp:746-756 | the string of one quotation mark does not come back |
| JsonCounts.SerializeThenParse | lw/mime/json.cpp:32-226 | serializing then parsing gives the value back exactly when it is uniform and faithful in this sense |
| JsonParsers.JSONParse.Update | lw/mime/json.cpp:647-743 | the loop over the text gives the state and the error of reading it token by token |
| JsonParsers.JSONParse.ParseString | lw/mime/json.cpp:746-765 | the string token, or the end of input |
| JsonParsers.JSONParse.ParseNumber | lw/mime/json.cpp:791-831 | the number token, or its error |
| JsonParsers.JSONParse.Reduce | lw/mime/json.cpp:833-877 | the finished token is folded into the one below, or the error of doing so |
| JsonParsers.ParseDocument | lw/mime/json.cpp:885-896 | the parsed node or the error |
| StreamScan.FoundIsOccurrence | lw/io/co/co.h:81-102 | what read_until returns ends in the delimiter, for any delimiter |
| StreamScan.BlankLineFoundIff | lw/io/co/co.h:81-102 | the scanner stops at a blank line exactly when an even number of CRs stands right before it, and an odd number before every blank line that ends earlier |
| StreamScan.BlankLineFoundWithoutBareReturns | lw/io/co/co.h:81-102 | and so always when no CR is bare |
| StreamScan.NoBlankLineFoundIff | lw/io/co/co.h:81-102 | it finds none exactly when every blank line has an odd number of CRs before it |
| StreamScan.PassesOverOne | lw/io/co/co.h:81-102 | in CR CR LF CR LF the blank line is passed over |
| StreamScan.UntilNothing | lw/io/co/co.h:86-101 | for any delimiter: nothing is returned exactly when no byte before the limit completes it and the stream is that long; a byte behind the window is read exactly when the stream is shorter and no byte completes it |
| StreamScan.UntilBlankLine | lw/io/co/co.h:86-101 | for the blank line all three outcomes, for every stream and limit, by where the blank lines and the CRs before them stand |
| StreamScan.ReadsPastWindow | lw/io/co/co.h:86-101 | CR LF with a limit of three: a byte behind the window is read |
| StreamScan.HeaderDelivered | lw/http/http_request.cpp:213-218 | a head without bare CRs whose blank line ends within the limit is delivered whole |
| StreamScan.ByteFoundIff | lw/io/co/co.h:63-79 | a single byte is found at its first occurrence |
| CoReaders.CoReader.CopyToFront | lw/io/co/co.cpp:69-72 | the window is moved to the front byte by byte, over itself |
| CoReaders.CoReader.ReallocBuffers | lw/io/co/co.cpp:24-49 | the window is kept in a buffer at least twice as large, or of the maximum size, with the room asked for, unless that passes the maximum |
| CoReaders.CoReader.AdjustBuffers | lw/io/co/co.cpp:53-73 | the window is kept and the room asked for is there; it is refused exactly when neither moving nor growing can make it |
| CoReaders.CoReader.LoadBuffer | lw/io/co/co.h:105-121 | the source's next bytes stand behind the window, none lost, at least one while the source has any |
| CoReaders.CoReader.Read | lw/io/co/co.h:54-61 | the next bytes of the stream are delivered, fewer only when the window is used up, and more than were buffered if the source has any; refused exactly when the buffer may not grow |
| CoReaders.CoReader.ReadUntil | lw/io/co/co.h:81-102 | the outcome depends on the stream and the limit only, however the bytes arrive; refused exactly when the scan reaches the end of the window and the buffer may not grow |
| CaseInsensitive.CompareNames | lw/base/strings.h:51-65 | the loop compares character by character, then by size cut to 32 bits |
| CaseInsensitive.EqualNames | lw/base/strings.h:35-47 | equal exactly when they have the same length and the same letters, a small letter being the same as its capital |
| Chars.FoldIff | lw/base/strings.h:41-46 | names have one spelling in common exactly when their letters are the same but for case |
| CaseInsensitive.LessIff | lw/base/strings.h:51-75 | where names part at letters, the one with the smaller capital is less; where one ends first, that one is |
| CaseInsensitive.StrictWeakOrder | lw/base/strings.h:51-75 | on names shorter than 2^31 the comparator is a strict weak order whose equivalence is equality ignoring case |
| CaseInsensitive.CompareZeroIff | lw/base/strings.h:63 | names compare equal exactly when one continues the other by a multiple of 2^32 characters, zero included |
| CaseInsensitive.BothLessIff | lw/base/strings.h:63 | two names are each less than the other exactly when one continues the other and the lengths differ by 2^31 modulo 2^32 |
| CaseInsensitive.LongNameBothLess | lw/base/strings.h:63 | a name of 2^31 characters and the empty name are each less than the other |
| CaseInsensitive.FindInserted | lw/http/http_request.cpp:282-286 | an inserted header is found under every spelling of its name, unless one was there before; all others are found as before |
| HttpHead.LineComesBackIff | lw/http/http_request.cpp:175-209 | a header line with any white space after the colon is read back exactly when the name has no colon or line end, and the value no leading white space and no line end |
| HttpHead.StartComesBackIff | lw/http/http_request.cpp:246-280 | a request line without a query is read back exactly when its parts have no white space and the path no question mark |
| HttpHead.QueryStartComesBackIff | lw/http/http_request.cpp:246-280 | a request line with a query is read back exactly when no part has white space and the path no question mark; the query has the blank behind it |
| HttpHead.HeadReadIff | lw/http/http_request.cpp:213-286 | a head is readable exactly when it is a request line, header lines and a blank line |
| HttpHead.FirstWins | lw/http/http_request.cpp:282-286 | under every name the map holds the first header of that name, ignoring case |
| HttpHead.HeadComesBack | lw/http/http_request.cpp:213-286 | a printed head gives back method, path, version, under every name its first header, and as content length what the first header of that name says, or 0 |
| HttpHead.ContentLengthIff | lw/http/http_request.cpp:288-305 | exactly digits below 2^63 are accepted, and a minus sign before a zero |
| HttpHead.FindStart | lw/http/http_request.cpp:246-280 | the cursor loops stop where the parts of the request line end |
| HttpHead.ReadHeaderLine | lw/http/http_request.cpp:175-209 | the cursor loops give the name, the value and the rest of the view |
| HttpHead.HttpRequest.ReadHeaders | lw/http/http_request.cpp:282-286 | lines are taken off the view, which shrinks, until the blank one |
| HttpHead.HttpRequest.ReadHeader | lw/http/http_request.cpp:213-234 | the whole head, once; a head loaded before is an error |
| Base64.DecodeInverts | lw/format/blobs.cpp:18-46 | a decoder of section 4 of RFC 4648 inverts the text of every byte string |
| Base64.TextSize | lw/format/blobs.h:89 | the text has the size the view states |
| Base64.SextetGathered | lw/format/blobs.cpp:28-38 | the six bits shifted out of the accumulator are the block's next sextet |
| Base64.SextetLeft | lw/format/blobs.cpp:41-44 | the bits left over, filled up, are the last sextet |
| Base64.ToBase64 | lw/format/blobs.cpp:18-46 | the accumulator loop writes the block of section 4 of RFC 4648, padding included |
| Base64.TextAt | lw/format/blobs.cpp:123-129 | the block loaded at an index holds the text from there on |
| Base64.Base64Iterator.LeftAtEnd | lw/format/blobs.h:98-112 | the difference to the end is never negative, and zero exactly at the end |
| Base64.Base64Iterator.Current | lw/format/blobs.h:91-93 | the character of the text at the iterator's position |
| Base64.Base64Iterator.Increment | lw/format/blobs.cpp:92-102 | the position goes up by one, to the end after the last block |
| Base64.WriteText | lw/format/blobs.h:120-124 | iterating from begin to end gives the text in four increments for every three bytes begun |
| FlagText.StringComesBack | lw/flags/format.cpp:121-147 | parsing inverts formatting for every string |
| FlagText.FormatIff | lw/flags/format.cpp:121-131 | the formatted string is the one text that parses to the string and has a backslash before every quotation mark, backslash and white space, and nowhere else |
| FlagText.EndingBackslash | lw/flags/format.cpp:133-147 | a backslash at the end stands for nothing |
| FlagText.Escape | lw/flags/format.cpp:121-131 | the loop gives the formatted string, which parses back |
| FlagText.Unescape | lw/flags/format.cpp:133-147 | the loop with its pending backslash gives the parsed string |
| FlagText.UnitFor | lw/flags/format.h:64-82 | the unit chosen divides the duration |
| FlagText.LargestUnit | lw/flags/format.h:64-82 | no larger unit divides it, of those that are written |
| FlagText.UnitsAre | lw/flags/format.cpp:180-199 | the units there are, and how many of each make the next; a year has 365.2425 days |
| FlagText.OneTerm | lw/flags/format.cpp:158-195 | any number with any unit behind it: the duration, or which error |
| FlagText.BadNumberIff | lw/flags/format.cpp:164 | what is refused as no number |
| FlagText.DurationComesBack | lw/flags/format.h:64-82 | every 64-bit number of nanoseconds is read back from its text, without overflow |
| FlagText.LaterTermsAreNonNegative | lw/flags/format.cpp:171-178 | only the first term of a text can be negative |
| FlagText.DurationsAdd | lw/flags/format.cpp:151-204 | texts written one after the other, the second starting with a digit, add up, and overflow exactly when the sum does not fit 64 bits |
| FlagText.BadEndingFails | lw/flags/format.cpp:151-204 | a text that cannot be read is not made readable by another in front of it |
| FlagText.ReadDuration | lw/flags/format.cpp:151-204 | the loop over terms gives the sum or the first error |
| Chars.ReadsDecimal | lw/flags/format.cpp:159 | a printed number is read back from in front of anything but a digit exactly when 64 bits hold it, and is out of range otherwise |

## Left out

- RouteParser.ParseIntoMatchers: regular-expression chunks are reported as unreadable, where the code hands them to a library for regular expressions; the trie takes any predicate in their place.
- HttpHead.HttpRequest.ReadHeader: the received head is a parameter; reading it from the connection is `CoReaders.CoReader.ReadUntil`.
- TrieRoutes.TrieAgreesWithRoute: paths with an empty segment are not compared, since a route's own matcher is undefined on some of them (`PathMatchers.UnsetViewIff`).
- The root as an endpoint: a route without matchers has no word of its own below the root.
- Registration of factories and the resource classes themselves: tables and templates.
- Threads other than the loop's own: `Scheduler::stop` from outside and races on promise states are marked as open in the code.
- The eventfd counter is unbounded; the system calls of epoll and eventfd succeed.
- `wait_for` and `try_wait`: the same dispatch with another timeout.
- Moving a `CircularQueue`: it does not carry the size over.
- Moving the value out of a promise: a second resumption would find it gone.
- JSON floating-point numbers: printing and `strtod` are the library's; the parser's scan of them is modelled, values are not.
- `\u` escapes: decoding drops the backslash and the letter (`JsonGrammar.EscapeByNumberLost`), and the printer writes none; the grammar is stated without them, and without the white space it allows between tokens.
- JSON object order: members are kept in the order read; the accessors do not show it.
- Buffers handed out by the reader are views into it; the model hands out their bytes at that time, so later overwriting is not captured.
- `CoReaders.CoReader.ReadUntil` for a byte: the second overload is the case of a delimiter of one byte.
- Query parameters of a request: the request line hands the query over (`HttpHead.QueryStartComesBackIff`); cutting it at `&` and `=` is not part of the model.
- `HttpRequest::body`: reads as many bytes as the content length says.
- Hexadecimal blobs, stepping iterators back, other flag types: they would add only easy members.
- Error texts, status tables, TLS, sockets, servers and examples.
