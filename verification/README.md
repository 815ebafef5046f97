# circuits.http: the response pipeline, the routes and the life of a request

A Dafny model of the parts of `circuits.http` whose correctness is spread over several
handlers, with proofs of what they promise together.

- **The response pipeline of the server** (`Pipeline*.dfy`, `HttpServer.dfy`). Requests of a
  connection wait in a pipeline; answers arrive in any order; a chain of events,
  `response.start`, `response.body` and `response.complete`, sends one response after the
  other. `Pipeline` gives every handler as a function from the state of a connection to the
  next state and the events it fires, and a run as a list of actions: reads, answers,
  errors, timers, disconnects, and the handling of *any* pending event, so that the theorems
  do not depend on priorities or delays. `HttpServer` has the classes `State` and `HTTP`
  with the mutable tables of the source; every method is proved to move the object by the
  step function, so the theorems about runs are theorems about the object.
- **The client's pool and pairing** (`HttpClient.dfy`), the requests its
  parser is told (`ClientParser.dfy`), and both ends together (`Framing.dfy`, `EndToEnd.dfy`).
- **Routes** (`Route*.dfy`): the flag-driven scanner against a grammar and on ill-formed
  routes, what the text of the expressions matches and when captures can be relied on, and
  the table of routes against the tree of resources.
- **The life of a request** (`Lifecycle.dfy`, `LifecycleOutcomes.dfy`): chains of handlers in
  priority order, the `httperror` wrapper, the one-shot guards of the follow-up events, and
  which handler decides the outcome.
- **Content negotiation** (`Negotiation.dfy`).

How a proof is built: `PipelineInvariant` shows that each handler keeps the invariant of its
connection (the token argument), `PipelineRuns` lifts this to every action and every run,
`PipelineTheorems` reads the promises off the invariant, `PipelineHeads` adds what the head
of a response decides, `PipelineArrivals` which clients there are, `PipelineHistory` what no
action takes back, `PipelineIdle` when idle connections are closed and what is left unsent,
`PipelineErrors` what a failing answer sets off, `PipelineProgress` the measure that every
dispatch decreases, and `PipelineDiscipline` shows under which discipline of the application
nothing is ever replaced or written past the pipeline, which `PipelineOutcomes` connects to
the life of a request.

## What the code does that one would not expect

The model follows the code; all of these but the remark on the pool are lemmas, with the exact
condition where there is one.

- A second `response` event for a client, or a handler that raises in the first one, swaps
  `client.response` for a bare 500; what is left of the body is cut off, or a client that
  waits gets the 500 in place of its response, and the pipeline moves on
  (`TwoAnswersCutTheFirstShort`). The client gets all that was accepted exactly when it was
  done already, or its head was sent and its body had nothing left, or it waits and its
  response is the bare 500 (`FailedResponseTruncates`; for runs `InFullUnlessLost` and
  `OnlyFailuresLose`).
- A connection on which nothing is ever read is not closed by the idle timer: the check that
  comes with it finds no state (`NothingReadNothingWatched`).
- A bare route variable that ends at a dash swallows the dash: `:a-:b` means `:(a):b`
  (`DashIsDropped`). An empty pair of braces raises an `IndexError` and an unclosed one a
  `KeyError`, neither of which `regexpath` turns into a `ValueError`; `TokenizeFailsExactly`
  says for which routes.
- Two variables without a slash between them split a path as early as they can, not as it
  was made (`AdjacentVariablesSplitEarly`), and two stars do so even across slashes. In
  routes of `:` and `*` the captures are what the path was made of exactly if a slash stands
  between any two and at most one is a star (`CapturesExactly`). An optional suffix after a
  variable takes what looks like one from the value (`SuffixCapturesExactly`).
- A resource directly below its domain keeps its path as it is; the rule for nested
  resources would give the same exactly when the path has one leading slash (`TopLevelPath`).
- `_route_into_domain` has no guard like its neighbours in `router.py`: called several times
  it makes several outcomes (`SeveralCallsSeveralOutcomes`, `OneOutcomeExactly`). A routing
  handler that raises something other than a `StatusException` leaves a client without any
  outcome (`OneOutcome`).
- A surplus message that reaches the client's loop overwrites the response of the client
  answered last; without one the handler raises (`SurplusGoesToTheLast`,
  `EveryRequestItsOwn`). At most one per read gets there, and only if the first message of
  the read began in an earlier one; otherwise the parser's own `pop(0)` raises
  (`OneSurplusPerRead`).
- The parser of the client is told the waiting requests at every read and takes one for every
  message that begins. A message that begins in a read which found another one open is
  therefore parsed for the request before its own, for instance a GET for a HEAD
  (`OwnRequestExactly`).
- `_buffers` of the client never shrinks, so the branches commented "server disconnected"
  are taken for no socket that came from the pool.
- A range such as `*/*;q=0` in `Accept` still counts as an acceptance, and ranges are tried
  in the order of a dictionary and not of their specificity (`RefusedRangeStillCovers`);
  `RightInEveryOrder` says for which headers and tables the choice is the one the header
  means, whatever the order (section 5.3.2 of RFC 7231).

## Assumptions

- The parser is an oracle: a read yields fresh requests, or one error.
- `write` events of one socket are delivered in the order in which they are fired; a block
  is on the wire from the moment its `write` is fired.
- A socket is not read again after it was closed.
- `response` and `httperror` events are fired for clients that were added to a connection;
  the application leaves a response alone once its `response` event was accepted.
- Preparing a response does not raise; `Response` stands for what it yields.
- Foreign handlers of the request lifecycle are wrapped by `httperror` like those of the
  source, do not stop an event without raising, and leave `client.method` and the
  `Content-Type` alone. Repeated calls of a `_success` or `_failure` handler happen within
  one dispatch.
- Paths that are matched contain no newline (`.` and `$` of Python's `re` treat it apart).
- The link delivers the requests in order, and the bytes of the server's wire in order and
  in pieces of any size. The client's parser finds the responses in a stream of framed ones;
  which responses are framed may depend on the number of the request they answer. This leaves
  out the reads of `OwnRequestExactly` that have a message parsed for another request, unless
  its framing is the same for both. `FramingIsPossible` shows that there is such a parser for
  every framing in which no message begins another.
- Once a response was decided for a client nobody but its own events works on it; this is a
  condition of `DecidedIsAccepted`.

## Model

| member | source | states |
|---|---|---|
| PipelineArrivals.ReadArrives | circuits/http/server/server.py:55-84 | A read appends its requests behind those of its connection, one by one in their order, to the clients and to the pipeline, and touches no earlier client and no other connection; the idle check is fired, and the error of a request on which the parser failed. A tunnel takes none. |
| PipelineArrivals.ClientsAreArrivals | circuits/http/server/server.py:71-77 | In every run the clients of a connection are, one by one, the requests that its reads brought, and the pipeline holds the last of them, those not answered in full, in that order. |
| PipelineTheorems.ResponsesInRequestOrder | circuits/http/server/server.py:118-207 | In every run the bytes on a connection are the complete accepted responses of its first requests in order of arrival, then a beginning of the next one (section 6.3.2 of RFC 7230); for connections on which no client lost anything and no error page was written past the pipeline. |
| PipelineTheorems.NoInterleaving | circuits/http/server/server.py:118-207 | Even where responses were replaced, what is written for two clients never mixes. |
| PipelineTheorems.OneTokenPerConnection | circuits/http/server/server.py:130-207 | In every run the assertion and the lookup in `composed` succeed; at most one start, body or complete event is pending per connection, it is the head's, and it is there exactly when the head was accepted; a raising body iterator leaves a pending close. |
| PipelineTheorems.CloseAfterTheLast | circuits/http/server/server.py:195-207 | `response.complete` closes exactly when the response asks for it and no further request was received; then every request of the connection was answered in full, in order. |
| PipelineTheorems.OneIdleTimer | circuits/http/server/server.py:86-108 | In every run at most one sleeping timer of a connection is un-aborted, and it is `state.timeout`. |
| PipelineIdle.CheckArms | circuits/http/server/server.py:86-108 | The check of a live connection that is no tunnel makes a new, sleeping, un-aborted timer the current one and aborts the one before; the other timers, the pipeline and the other connections stay as they are. |
| PipelineIdle.CheckPasses | circuits/http/server/server.py:92-99 | The check of a tunnel, or of a connection that is gone, changes nothing. |
| PipelineIdle.IdleConnectionsAreClosed | circuits/http/server/server.py:82-116 | In every run a live connection that is no tunnel has an idle check pending or a current timer, which is not aborted; if that one wakes while every pending client is done and no tunnel is open, the close is fired. |
| PipelineIdle.NothingReadNothingWatched | circuits/http/server/server.py:82-95 | The check fired when a connection is made leaves no timer unless something was read by the time it is handled. |
| PipelineIdle.IdleCloseOwesNothing | circuits/http/server/server.py:108-116 | In every run the idle timer closes exactly when it is the current one, no tunnel is open and every pending request is done; nothing is owed then if and only if every pending client was started, as those are whose `response` event did not fail; then at most one request is pending, and unless something was lost before all accepted responses are on the wire. |
| PipelineTheorems.FailedResponseTruncates | circuits/http/server/server.py:274-291 | A failed `response` event leaves what an accepted client will have been sent as it is exactly if the client was done; or its head was sent and its body was at its end; or it still waits and its response is the bare 500. |
| PipelineTheorems.InFullUnlessLost | circuits/http/server/server.py:118-291 | In every run an answered client was sent exactly the response accepted for it if and only if no failed `response` event took anything from it; while the connection lives, the same of what any accepted client will have been sent. |
| PipelineHistory.OnlyFailuresLose | circuits/http/server/server.py:274-291 | In any step a client loses something exactly if its own failed `response` event is handled, the connection lives, it was accepted and is not done, and the bare 500 is not what it was to get anyway. |
| PipelineOutcomes.DecidedIsAccepted | circuits/http/server/server.py:209-250 | In every run that decides no client twice: once an error or a response was decided for a client and nobody works on its response any more, exactly that page or response was accepted, or a pending event will see to it, or the connection is gone. |
| PipelineOutcomes.OrderlyExactly | circuits/http/server/server.py:118-309 | A run keeps to the discipline if and only if nothing raises and every client is decided at most once. |
| PipelineOutcomes.LivesAreOrderly | circuits/http/server/routing/router.py:14-28 | If what is fired for every request is, event by event, a beginning of what its life in `Lifecycle` fires, the run keeps to the discipline, and the wire carries exactly the accepted responses in request order. |
| PipelineOutcomes.LivesSendEverything | circuits/http/server/routing/router.py:14-28 | If every request of a connection came to an outcome or was refused by the parser, then at rest, with the connection still there, every response was accepted and is on the wire in full. |
| PipelineTheorems.TwoAnswersCutTheFirstShort | circuits/http/server/server.py:130-131 | A run from the initial state in which a second `response` event makes a body disappear though the pipeline empties. |
| PipelineErrors.ErrorIsAnswered | circuits/http/server/server.py:209-250 | From an error for a client that waits: its page is accepted as the response, and on its way if the client is first, with nothing else changed. |
| PipelineErrors.LateErrorIsHarmless | circuits/http/server/server.py:219-222 | From an error for a client whose response was accepted: at the end of the cascade nothing has changed. |
| PipelineErrors.FailingErrorCloses | circuits/http/server/server.py:293-329 | From a failed error, or a page that cannot be encoded, for a client that was not accepted: the bare 500 is on the wire past the pipeline and the connection is gone. |
| PipelineErrors.RaisingErrorCloses | circuits/http/server/server.py:293-309 | The same from an error during which another handler raises. |
| PipelineErrors.SecondResponseReplaces | circuits/http/server/server.py:130-131 | From a second `response` event for a client that is not done: it is done with a bare 500 in place of its response, and nothing else has changed. |
| PipelineErrors.SecondResponseAfterTheEnd | circuits/http/server/server.py:274-281 | For a client that is done nothing changes. |
| PipelineErrors.RaisingResponseReplaces | circuits/http/server/server.py:274-291 | From a `response` event during which another handler raises: it is accepted all the same, and the bare 500 has taken its place. |
| PipelineErrors.RaisingBodyCloses | circuits/http/server/server.py:317-327 | From a body iterator that raises: nothing more is written, and the connection is gone. |
| PipelineErrors.NobodyListens | circuits/http/server/server.py:347-352 | With the connection gone, no answer and no error writes anything or leaves an event behind; the body is closed. |
| PipelineHeads.TunnelsAreAskedFor | circuits/http/server/server.py:152-154 | In every run a connection becomes a tunnel only by the head of an accepted response that switches protocols or accepts a CONNECT; without replaced responses, if and only if. |
| PipelineHeads.ClosesAsTheLastResponseAsks | circuits/http/server/server.py:156-207 | In every run a completing response closes the connection exactly when the accepted response asked for it and nothing else was received. |
| PipelineHistory.StepExtends | circuits/http/server/server.py:42-345 | No action takes back an accepted response, an answer or a done mark, or changes the place of a client. |
| PipelineHistory.AcceptedIsFinal | circuits/http/server/server.py:118-309 | Over any continuation of any run, late errors included, an accepted response stays the one that is sent; only a failed `response` event that takes something from it can break this. |
| PipelineHistory.ReplacedAtMostOnce | circuits/http/server/server.py:274-291 | After the first replacement of a client's response no later failure has any effect, in any continuation of the run. |
| PipelineInvariant.KeepsHandle | circuits/http/server/server.py:118-345 | Every handler, given the tokens of its connection, keeps the invariant: shape of the pipeline, exactly the token the head calls for, every client's bytes a beginning of its accepted response. |
| PipelineInvariant.KeepsHandleRaising | circuits/http/server/server.py:317-333 | The same when another handler, the body iterator or the encoder raises. |
| PipelineRuns.StepKeeps | circuits/http/server/server.py:42-345 | Every action in every state with the invariant keeps it on all connections, whatever event is handled. |
| PipelineRuns.RunKeeps | circuits/http/server/server.py:42-345 | Every run keeps the invariant. |
| PipelineProgress.EveryDispatchSpendsWork | circuits/http/server/server.py:118-309 | Handling any pending event strictly decreases a measure over events, unsent chunks and waiting clients; in particular the error cascade ends. |
| PipelineProgress.ComesToRest | circuits/http/server/server.py:118-309 | Without new input at most as many dispatches are possible as there is work, in any order. |
| PipelineProgress.RestMeansAnswered | circuits/http/server/server.py:118-207 | With no event pending and every request answered by the application, the pipeline of a live connection is empty and every body was sent to its end. |
| PipelineDiscipline.CalmStep | circuits/http/server/server.py:209-309 | If no client is decided twice and nothing raises, no action leads to a refused `response` event, a replaced response or an error page past the pipeline. |
| PipelineDiscipline.OneOutcomeMeansExactBytes | circuits/http/server/server.py:118-309 | Under that discipline the order and content of the wire hold without further conditions. |
| PipelineDiscipline.OneOutcomeMeansAllBytes | circuits/http/server/server.py:118-207 | Under it, at rest, the wire is exactly all accepted responses in order. |
| HttpServer.State.AddClients | circuits/http/server/server.py:71-77 | Appends the requests of a read; `PipelineArrivals.ReadArrives` says in which order. |
| HttpServer.State.SendHead | circuits/http/server/server.py:151-166 | The new state of a connection after the start of a response. |
| HttpServer.State.SendChunk | circuits/http/server/server.py:175-185 | The new state after one round of the body iterator. |
| HttpServer.State.PopHead | circuits/http/server/server.py:196-207 | The pop of the head and what follows it. |
| HttpServer.State.RestartTimer | circuits/http/server/server.py:100-108 | Aborts the old timer and makes a new one the current one, as `PipelineIdle.CheckArms` spells out. |
| HttpServer.State.AllDone | circuits/http/server/server.py:114-114 | The loop decides whether every pending client is done. |
| HttpServer.HTTP.OnRead | circuits/http/server/server.py:42-84 | Moves the server by the read of some requests, and fires a routing event for each of them: the `j`-th for the `j`-th client behind those that were there. |
| HttpServer.HTTP.OnReadFails | circuits/http/server/server.py:58-69 | Moves the server by a read the parser fails on. |
| HttpServer.HTTP.CheckTimeout | circuits/http/server/server.py:86-108 | Moves the server by the first half of the idle check. |
| HttpServer.HTTP.OnConnect | circuits/http/server/server.py:82-84 | Moves the server by a new connection. |
| HttpServer.HTTP.WakeUp | circuits/http/server/server.py:110-116 | Moves the server by the waking of a timer, even if its connection is gone from the table. |
| HttpServer.HTTP.OnResponse | circuits/http/server/server.py:118-138 | Moves the server by the effect of `response`. |
| HttpServer.HTTP.OnResponseStart | circuits/http/server/server.py:140-166 | Moves the server by the effect of `response.start`. |
| HttpServer.HTTP.OnResponseBody | circuits/http/server/server.py:168-185 | Moves the server by the effect of `response.body`; the connection need not be in the table. |
| HttpServer.HTTP.OnResponseComplete | circuits/http/server/server.py:187-207 | Moves the server by the effect of `response.complete`. |
| HttpServer.HTTP.OnHttpError | circuits/http/server/server.py:209-240 | Moves the server by the effect of `httperror`. |
| HttpServer.HTTP.OnHttpErrorSuccess | circuits/http/server/server.py:243-250 | Moves the server by the effect of `httperror_success`. |
| HttpServer.HTTP.OnHttpErrorFailure | circuits/http/server/server.py:293-315 | Moves the server by the effect of `httperror_failure`. |
| HttpServer.HTTP.OnResponseFailure | circuits/http/server/server.py:274-291 | Moves the server by the effect of `response_failure`. |
| HttpServer.HTTP.OnClose | circuits/http/server/server.py:335-345 | Removes the connection from the table and nothing else. |
| HttpServer.HTTP.PrematureClientDisconnect | circuits/http/server/server.py:347-352 | Drops the body of a client that is gone. |
| HttpServer.HTTP.Dispatch | circuits/http/server/server.py:118-345 | Handling any pending event is a step of the model, keeps the invariant, and never breaks on the assertion or the lookup. |
| HttpServer.HTTP.DispatchRaising | circuits/http/server/server.py:317-333 | The same when foreign code raises. |
| EndToEnd.EveryClientGetsItsOwnResponse | circuits/http/client/client.py:72-100 | In every run of both ends, for any order in which the server's application finishes, any pieces in which the bytes of the wire arrive and any parser that finds framed messages: a client object's response is, byte for byte, the one the server accepted for that object's own request; responses are announced in the order of the requests; no message finds the queue empty. |
| EndToEnd.DeliveredBytesWereWritten | circuits/http/server/server.py:133-207 | The bytes the client has read are the accepted responses of the clients that were answered and a proper beginning of the next; when all was read, every request the server answered has its response. |
| HttpClient.TakesInTurn | circuits/http/client/client.py:94-100 | As many requests are taken, in order, as there are messages. |
| HttpClient.PairsInTurn | circuits/http/client/client.py:94-100 | Every message goes to the request in its turn. |
| HttpClient.PairsNoOther | circuits/http/client/client.py:94-100 | No other request's response is touched. |
| HttpClient.SurplusGoesToTheLast | circuits/http/client/client.py:95-100 | What a surplus message that reaches the loop does: the last client is given it, or the name is unbound. |
| ClientParser.OneSurplusPerRead | circuits/http/client/client.py:14-17 | At most one message of a read is one too many, and only if a message was open before the read: any other surplus message finds the parser without a request, which raises. |
| ClientParser.RaisesExactly | circuits/http/client/client.py:13-17 | The parser raises in a read if and only if more messages begin in it than requests wait. |
| ClientParser.OwnRequestExactly | circuits/http/client/client.py:14-17 | In every run without a surplus message, message `i` is parsed for request `i` if and only if the read in which it began found no other message open; otherwise for the request before. |
| ClientParser.ClientStateMachine.OnMessageStarted | circuits/http/client/client.py:13-17 | Takes the first request that is left, or raises. |
| ClientParser.Connection.OnRead | circuits/http/client/client.py:90-96 | The parser is told the requests that wait when the read begins; the loop takes one off for every message that ends. |
| HttpClient.EveryRequestItsOwn | circuits/http/client/client.py:94-100 | A read gives each waiting request its own message exactly when there is no surplus, or the surplus ends as that turn does. |
| HttpClient.ChannelNameIsInjective | circuits/http/client/client.py:40-40 | Names made from different numbers differ, so no channel is used twice. |
| HttpClient.DecimalReadsBack | circuits/http/client/client.py:40-40 | The digits of a channel's name stand for its number, without leading zeros. |
| HttpClient.HTTPClient.OnConnect | circuits/http/client/client.py:33-52 | Reuses a connected socket of the pool, otherwise adds a new one under a new channel and fires its connect event; the three indexes stay in agreement. |
| HttpClient.HTTPClient.OnRequest | circuits/http/client/client.py:67-78 | If the socket is in the pool, appends the client to its queue and fires a write for every block of the request, in order; otherwise does nothing. |
| HttpClient.HTTPClient.SocketOf | circuits/http/client/client.py:83-87 | The first of the event's channels that belongs to the pool. |
| HttpClient.HTTPClient.OnRead | circuits/http/client/client.py:81-100 | A read does to the queue of the connection of its first known channel what `Pair` says, and leaves all other queues alone; a read on foreign channels does nothing. |
| RouteScanner.Tokenize | circuits/http/server/routing/utils.py:15-69 | The loop with its flags computes `Tokens`, errors included. |
| RouteScanner.ScanAppend | circuits/http/server/routing/utils.py:27-64 | Scanning a concatenation is scanning its parts one after the other. |
| RouteGrammar.ScanRoute | circuits/http/server/routing/utils.py:27-69 | From any neutral state, a printed well-formed route puts out the expression of its parts after what was put out before. |
| RouteGrammar.RouteRoundTrip | circuits/http/server/routing/utils.py:15-86 | For every well-formed list of literals and variables, scanning its printed route gives the join of the expressions of its parts. |
| RouteGrammar.NestedRoutes | circuits/http/server/routing/utils.py:27-68 | The expression of `p/q` is that of `p`, an escaped slash, and that of `q`. |
| RouteGrammar.DashIsDropped | circuits/http/server/routing/utils.py:44-62 | The character that ends a bare variable belongs to the expression exactly when it is not a dash. |
| RouteGrammar.BareVariableEnds | circuits/http/server/routing/utils.py:17-62 | After `:name` or `*name` the characters `/ , ; . #` end the variable and belong to the route, a dash ends it and is dropped, and any other character is one more of the name. |
| RouteGrammar.OpenParenthesis | circuits/http/server/routing/utils.py:36-66 | `:(name` without its closing parenthesis at the end of a route is `:(name)`. |
| RouteGrammar.SecondColonCuts | circuits/http/server/routing/utils.py:55-58 | `{name:req:more}` is `{name:req}`. |
| RouteGrammar.NoBracesNoError | circuits/http/server/routing/utils.py:27-69 | Scanning fails on no route without braces, well-formed or not. |
| RouteFaults.TokenizeFailsExactly | circuits/http/server/routing/utils.py:27-69 | For every route, well-formed or not: `tokenize` raises if and only if, outside of names, a pair of braces is empty (`IndexError`) or one is never closed and its text is no name with an expression (`KeyError`). |
| RouteRegex.ExpressionReadsBack | circuits/http/server/routing/utils.py:72-86 | The text emitted for a route is read in one way only: as the characters and groups that its parts ask for. |
| RouteMatching.MatchIsSound | circuits/http/server/routing/utils.py:72-86 | Captured groups, put back into the emitted forms, give the path that was matched, and each is of the kind its group asks for. |
| RouteMatching.ExpandIsMatched | circuits/http/server/routing/utils.py:72-86 | The expansion of any admissible values is matched. |
| RouteMatching.MatchedExactly | circuits/http/server/routing/utils.py:7-86 | The text that `regexpath` makes of a route matches a path if and only if the path is the route with admissible values in it; the captures are such values. |
| RouteCaptures.AdmissibleExactly | circuits/http/server/routing/utils.py:72-86 | Which values a route admits, read off its parts: without a slash for `:x` and `{x}`, without a newline for `*x`, without slash and dot for `{.x}`, of the given expression for `{x:req}`; no value at all only for a dotted variable. |
| RouteCaptures.CapturesExactly | circuits/http/server/routing/utils.py:72-86 | For routes of literals, `:` and `*`: matching the route with any values in it captures exactly these if and only if a slash stands between any two consecutive variables and at most one is a star. |
| RouteCaptures.SeparatedCaptures | circuits/http/server/routing/utils.py:72-86 | That is enough for every kind of variable, as long as no given expression matches a slash. |
| RouteCaptures.SuffixCapturesExactly | circuits/http/server/routing/utils.py:82-84 | For `:(x){.y}`: the captures are the values if and only if there is a suffix, or the value before it does not look like one with a suffix. |
| RouteCaptures.CapturesRoundTrip | circuits/http/server/routing/utils.py:7-86 | The first two of the text that `regexpath` makes of the route. |
| RouteCaptures.AdjacentVariablesSplitEarly | circuits/http/server/routing/utils.py:72-86 | `:(a):b` always gives one character to `a`. |
| RouteTree.BuildTreePath | circuits/http/server/routing/regexpath.py:54-66 | The climb ends and yields every ancestor's path and the resource's own, each stripped and after a slash; a resource below the domain keeps its path. |
| RouteTree.TopLevelPath | circuits/http/server/routing/regexpath.py:55-57 | The exception for the top level agrees with the rule exactly for paths with one leading slash. |
| RouteTree.WalkVisitsEachOnce | circuits/http/server/routing/regexpath.py:47-52 | The recursive walk visits every node as often as the tree holds it. |
| RouteTree.ClimbMatchesWalk | circuits/http/server/routing/regexpath.py:47-66 | The ancestors found by climbing are those through which the walk came down. |
| RouteTree.RegexPathRouter.OnRegisterRoutes | circuits/http/server/routing/regexpath.py:23-30 | The new table holds exactly the own routes and the pattern of every resource; if one path cannot be compiled the old table stays. |
| RouteTree.TableEqualsTree | circuits/http/server/routing/regexpath.py:23-66 | A pattern is in the table if and only if it is that of the path from the domain down to its resource. |
| RouteTree.NestedResourceExpression | circuits/http/server/routing/regexpath.py:54-66 | The expression of a nested resource is that of its ancestors and its own in sequence, each after a slash. |
| RouteTree.NestedResourceMatches | circuits/http/server/routing/regexpath.py:40-66 | The table's expression for a nested resource matches a path if and only if the path is the routes of its ancestors and its own with admissible values in them, each after a slash. |
| RouteTree.FindResource | circuits/http/server/routing/regexpath.py:32-45 | Of the entries that take the path and whose resource identifies itself, the last one in the order of iteration is chosen, with its captures; which entries take a path is in `RouteTree.FoundInTree`. |
| RouteTree.FoundInTree | circuits/http/server/routing/regexpath.py:23-45 | For a table made from the tree, in any order: a resource is found if and only if the path is the route from the domain down to a resource with admissible values in it, or an own route takes it, and the resource identifies itself with what is captured; what is found is such a resource, and the captures are such values. |
| Lifecycle.ChainStops | circuits/http/utils.py:56-73 | A chain runs up to the first handler that raises, and its result is the state there. |
| Lifecycle.MethodIsKnown | circuits/http/server/resource/resource.py:72-84 | No handler below priority 0.6 is called without a method, and the method is the table's entry for the request. |
| Lifecycle.ExecutionIsGuarded | circuits/http/server/resource/resource.py:86-99 | The application's method runs only if all handlers of higher priority returned, it is the table's entry, and a content type is present. |
| Lifecycle.DomainIsKnown | circuits/http/server/routing/domain.py:60-72 | When the first routing event succeeds, the domain that `_route_into_domain` uses is not None. |
| Lifecycle.OneOutcome | circuits/http/server/routing/router.py:14-28 | One second routing event: at most one error or response is fired for a client, and none exactly when a routing handler raises something other than a `StatusException`. |
| Lifecycle.SeveralCallsSeveralOutcomes | circuits/http/server/routing/domain.py:68-72 | If `_route_into_domain` is called several times, a path without resource has as many outcomes. |
| Lifecycle.OneOutcomeExactly | circuits/http/server/routing/domain.py:68-72 | At most one outcome holds for all handlers if and only if `_route_into_domain` is called at most once. |
| LifecycleOutcomes.FirstRaiseDecides | circuits/http/utils.py:56-73 | The first handler that raises decides, by what each handler sees for itself: a `StatusException` becomes one error by the wrapper; any other exception one error by `_on_request_failure` if it was raised in the request event, and nothing if while routing. |
| LifecycleOutcomes.AnswerExactly | circuits/http/server/routing/router.py:14-35 | A response is fired if and only if the host is no alias and its domain is known, a resource was found, the table has a method, a content type is present, and every foreign handler and the application's method return. |
| Lifecycle.Client.Dispatch | circuits/http/utils.py:49-74 | The wrapped loop ends where the chain does, stops the event exactly if a handler raised, clears `events.request` then, and fires one error exactly for a `StatusException`. |
| Lifecycle.Client.OnRoutingSuccess | circuits/http/server/routing/router.py:14-21 | However often it is called, at most one request event is made, and none for a stopped event. |
| Lifecycle.Client.OnRequestSuccess | circuits/http/server/routing/router.py:23-28 | However often it is called, at most one response is fired, and none for a stopped event. |
| Lifecycle.Client.OnRequestFailure | circuits/http/server/server.py:252-272 | However often it is called, one error is fired. |
| Lifecycle.Client.ServeRequest | circuits/http/server/routing/router.py:23-28 | The request event ends in exactly one outcome, whatever its handlers do; `LifecycleOutcomes.FirstRaiseDecides` says in which. |
| Lifecycle.Serve | circuits/http/server/server.py:71-74 | From the first routing event on, exactly `Outcomes` is fired for a client, for any number of repeated calls of the guarded handlers. |
| Negotiation.AvailableMimetypes | circuits/http/server/resource/method.py:29-31 | The list holds every type of the table, the highest quality first and of equal ones the later in the alphabet, for every order of the table. |
| Negotiation.BeforeIsLexicographic | circuits/http/server/resource/method.py:29-31 | Names are compared as in a dictionary: a beginning comes first, otherwise the first character that differs decides. |
| Negotiation.RankingIsUnique | circuits/http/server/resource/method.py:29-31 | That order determines the list. |
| Negotiation.AcceptOf | circuits/http/server/resource/method.py:147-147 | Without an `Accept` header everything is acceptable. |
| Negotiation.HeaderIsRead | circuits/http/server/resource/method.py:147-147 | The ranges of a header are those its elements name, each with the quality of its last element. |
| Negotiation.CoversExactly | circuits/http/server/resource/method.py:154-161 | A range covers a type if it is `*` or `*/*`, or ends in a slash and a star and the type begins with what stands before the star. |
| Negotiation.FirstCovered | circuits/http/server/resource/method.py:156-162 | The first type that a range covers and the header does not refuse. |
| Negotiation.Negotiate | circuits/http/server/resource/method.py:146-162 | For every order of the header: the choice is available, acceptable and not refused; None exactly if no type is acceptable; if types are named with a quality above zero, the highest ranked of them. |
| Negotiation.RightInEveryOrder | circuits/http/server/resource/method.py:146-162 | For every table and header: the choice is what the header means (and None where it accepts nothing) in every order of the dictionary if and only if a type is named with a quality above zero, or for every range the highest ranked type that it covers and that is not refused by name has a most specific range with a quality above zero. |
| Negotiation.RefusedRangeStillCovers | circuits/http/server/resource/method.py:154-162 | For `*/*;q=0`, and for `*/*, text/*;q=0` read in that order, the code chooses a type that the header refuses. |

## Left out

- Parsing, composing and the codecs of httoop, sockets, DNS and TLS, including `ssl_through_http` and `http_through_ssl`: they are oracles or not part of this model.
- The dispatcher of circuits beyond priority order, stopping and follow-up events; channels are lists of names.
- Coroutine methods of resources: their exceptions bypass the `httperror` wrapper.
- The bytes of `httperror_failure` are written as one block, and mark the connection as written past the pipeline; nothing is claimed about the wire after that.
- Client objects and timers of the server are values inside their connection's state, known by socket and place; that a client object could be shared between connections is not captured.
- EndToEnd.DeliveredBytesWereWritten: the parser is a function of the bytes for a given sequence of requests; which request each message is parsed for is in `ClientParser`, and is not joined with the bytes of the wire.
- Requests are not bytes on the link: the `i`-th request written is the `i`-th that arrives.
- EndToEnd.EveryClientGetsItsOwnResponse: about connections on which nothing was lost or written past the pipeline and every accepted response is framed; the former is characterised by `PipelineHistory.OnlyFailuresLose`.
- HttpServer.HTTP.OnRead: the branch for a TLS handshake on a plain socket is not in its contract.
- PipelineTheorems.ResponsesInRequestOrder: its two conditions are about the connection at the end of the run; `PipelineDiscipline.OneOutcomeMeansExactBytes` replaces them by one about what the application fires.
- Lifecycle.OneOutcome: for one second routing event; `Lifecycle.OneOutcomeExactly` shows that this is the exact condition.
- RouteGrammar.RouteRoundTrip: `re.escape` is modelled character by character, and what `re.compile` refuses (a duplicate or ill-formed group name, a bad custom expression) is not modelled.
- RouteMatching.MatchedExactly: the expression of `{x:req}` is an opaque language, and has its parentheses in pairs, save for escaped ones; names are identifiers, as `re` demands.
- RouteCaptures.CapturesExactly: routes are without a newline, as paths are. For `{.x}` and `{x:req}` the condition is enough (`RouteCaptures.SeparatedCaptures`) and not necessary: whether other routes with them split uniquely depends on how the literals between overlap with themselves, and on the given expressions.
- `_build_tree_path` joins text with a byte separator, which only Python 2 allows; strings here are one type.
- `_http_one_zero`, `_route_forwarded_host` and the search among domains and aliases: `RouteHost` takes its answer as a parameter.
- Lifecycle.Serve: the second routing events are dispatched one after the other before their successes are handled.
- Websocket, WSGI, SAML, static files, proxying, logging and cookies.
- Header setters for caching, security and languages, and conditional requests: a branch or two each.
