# Song RPC: a verified model

Song is an RPC framework: an interface-language compiler, a schema-directed binary codec, message framing with an
optional HMAC decorator, and a runtime that serves many clients with remote objects, streaming calls and pushed property
changes. This project models those parts in Dafny and proves what they promise.

`dafny verify dfyconfig.toml` checks everything; the proofs do not depend on any verifier flag. Each file holds one module.

| files | what they model |
|---|---|
| `Session`, `Watching`, `Lifecycle`, `Connection`, `Loop`, `History`, `Outcomes` | the whole system as steps: one service, any number of clients, two FIFO channels each; reply correlation, subscriptions and object lifetimes over every run |
| `Client`, `Service`, `Streams`, `Objects`, `Subscriptions` | the client connection, the service runtime, stream writer and reader, and the two registries, as objects with specification functions |
| `Codec`, `CodecProofs`, `BufferCodec`, `PythonCodec`, `PythonBuffer`, `Bytes` | what the emitted encoders and decoders do, in both languages |
| `Buffers`, `Framing`, `Secure`, `Wire`, `WireBuffer`, `Handshake`, `Limits`, `Layout` | the growable buffer, TCP framing, the HMAC decorator, message formats, the init handshake, and what the size limits do to a whole channel |
| `Tokens`, `ParserSpec`, `Printer`, `Parser`, `Lexer`, `FrontEnd`, `Resolver`, `Ast`, `Definitions` | the interface language: lexing, parsing, printing and semantic checks |
| `DataCopy` | the chunked file transfer service |
| `Sets` | facts about finite sets |

The imperative parts (`Buffer`, `PyBuffer`, `TcpTransport`, `SecureTransport`, `ServiceConnection`, `ServiceRuntime`, the registries,
`StreamWriter`, `StreamReader`, `Parser`, `Resolver`, `Lexer`, `DataCopyService`) are classes whose methods are proved
against functions; the laws are proved about those functions. `Session` uses the same functions: `ServeOldest` is
`Service.Handle`, which `ServiceRuntime.HandleMessage` implements, and the rounds of `Connection.Receive` add up to
`Client.Await`, which `ServiceConnection.RecvReply` implements.

The channels of a connection hold messages; `Limits.ChannelReadsBack` ties them to bytes, and from the first message over
the limit on a client may act on anything (`Session.Step.Misread`).

User code is an arbitrary `Reaction`: any actions on the stream, any notifications raised on the way, any response, and
possibly an exception. The premises the code forces are written into the contracts: sequence ids are 32 bits wide (at most
2^32 requests per connection), messages over 16 MB and error texts over 1 MB do not arrive (`Sendable`, which also holds the
field widths that the C++ types ensure), object ids are negative 32-bit integers (`IdsLeft`), a transport's send enqueues a
whole message, and by-value struct nesting is acyclic (`ValidEnv`, with a rank for every struct).

Where the code differs from what one would expect:

- A class property of a user-defined type that is not readonly must be written `Type name[]?;`, with its array and optional
  marks behind the name; the usual order is rejected (`Printer.MarksBeforeNameRejected`).
- A class cannot have a non-readonly property of its own type or a plain method of its own name; the parser takes either for
  a constructor (`Printer.ParseUndoesPrint` gives the exact condition).
- Documentation that starts with an empty line loses it (`Printer.DocGatheredIff`).
- `call_oneway` is answered. Unless the answer is drained first it makes a later call fail, though never return a wrong
  result (`Session.OwnReplyInRunsIff`, `Connection.DrainingRestoresOrderIff`, `Session.CorrelatedReplies`).
- Sending has no size limit, receiving has one of 16 MB. A service whose result is larger makes the call throw and leaves the
  client reading from inside that payload, so that a later call may return bytes of it (`Connection.OversizedResultMisleads`,
  `Limits.EmbeddedFrameIsRead`); a client whose arguments are larger ends its connection's loop by an exception.
  `Session.CallsComplete` has the exact sizes.
- An exception whose text is over 1 MB cannot be turned into an error reply: nothing is sent, and the connection's loop ends by
  an exception (`Service.OneAnswer`, `Streams.UndisciplinedExamples`).
- A streaming call does not set notifications aside; one ahead of the terminator fails it (`Client.NotificationBreaksStream`).
- A dispatcher that ends its stream and then throws or writes sends two terminators, and one that aborts and returns sends
  none (`Streams.OneTerminatorIff`).
- A subscription to an object that does not exist yet is kept, but does not make the object notify once it is created
  (`Outcomes.EarlySubscriptionIsSilent`); one to a live object does (`Outcomes.SubscriberIsNotified`).
- A connection whose loop ends by an exception is not cleaned up after: its objects stay (`Lifecycle.LiveObjectsAreTracked`),
  notifications go on being sent to its destroyed transport (`Watching.DestroyedTransportIsTargetIff`), and a newcomer at the
  same address inherits its subscriptions until it subscribes to or unsubscribes from the same properties itself
  (`Watching.NotifiedExactlyIff` is the exact condition, `Watching.ReusedTransportInheritsWatches` the failing case).
- A method list too long for a 16 MB init message is lost (`Handshake.ListsAgreeIff`).

## Model

| member | source | states |
|---|---|---|
| `Session.CorrelatedReplies` | src/process.cpp:412-488 | In every run of the many-client system (timeouts, left-over one-way or aborted-stream replies, notifications between any two messages, other clients), if the service has sent the connection nothing over the limits, a payload handed to the caller of its k-th request is a result the service produced for that very request; from a unary dispatcher, a property or an object method it is the bytes that user code left in its response, and it did not throw; from an object creation it names the requested type and the id given out. For at most 2^32 requests per connection |
| `Outcomes.RequestsBring` | src/runtime.cpp:441-619 | In every run, on a connection with nothing left over: a blocking call, property get or set, object call or object creation brings its caller exactly what whoever serves it leaves, or the service error with its code (2, 3, 300, 301, 302) and text, within the size limits |
| `Outcomes.ReplyBrings` | src/runtime.cpp:441-619 | The same for one request: the outcome the client makes of the service's one reply, request kind by request kind |
| `Lifecycle.CreatedObjectIsMine` | src/runtime.cpp:497-515 | In every run, what create_object returns names the requested type and an object this very connection created; it is live or has been deleted exactly once |
| `Connection.OversizedResultMisleads` | src/transport.cpp:345-352 | Why the limits are needed: a call whose result is over 16 MB throws with the payload left unread, and the next call can be given a result that was never sent |
| `Limits.EmbeddedFrameIsRead` | src/transport.cpp:345-369 | Bytes that do so: behind a result over 16 MB the next frame taken is one embedded in its payload, whatever sequence id it carries |
| `Limits.ChannelReadsBack` | src/transport.cpp:292-376 | For everything a service sends (fields in range, under 4 GB each), framing and decoding the concatenated bytes gives exactly the messages ahead of the first one over the limit; then comes a clean end if and only if there is none, an exception otherwise |
| `Limits.UpChannelReadsBack` | src/transport.cpp:292-376 | The same for everything a client sends |
| `Limits.CrossesIff` | src/wire.cpp:31-40 | One message crosses as itself if and only if it is within the limit; a larger one throws behind its header |
| `Connection.WrappedIdReturnsOldReply` | src/process.cpp:460-464 | Why that bound is needed: the request issued 2^32 requests after a one-way call is given the one-way call's unread reply |
| `Session.RunKeepsConns` | src/runtime.cpp:408-666 | The inductive invariant of every connection holds after every run: requests and replies in FIFO order, every answer genuine, every returned payload among its own request's answers unless the client has met a message over the limit, every notification seen or still queued |
| `Session.ApplyKeepsConns` | src/runtime.cpp:408-666 | No single step of client, service or another connection breaks that invariant |
| `Session.ServeKeepsConns` | src/runtime.cpp:417-619 | Handling one message keeps it on the served connection and on all others, which only receive notifications |
| `Session.LocalKeeps` | src/process.cpp:412-677 | The client's own steps keep it |
| `Session.DeliveryReplies` | src/runtime.cpp:417-619 | A handled message puts its replies on the asking connection only, whatever notifications user code raises meanwhile |
| `Session.OrderKeptIff` | src/process.cpp:412-604 | A connection on which no answer is unread or outstanding, apart from the awaited one, stays so through a step if and only if the step is calm: no timeout, no one-way call, nothing over the limit, no notification met by a streaming call, no answer of the wrong form |
| `Session.OwnReplyInRunsIff` | src/process.cpp:412-440 | In every run with at most 2^32 requests, a blocking call whose first reply has arrived gets the first message of its own answer if and only if, when it was issued, no earlier request had an unread or outstanding answer message; otherwise it throws |
| `Connection.OwnReplyIff` | src/process.cpp:412-440 | The same in every state that keeps the invariant; the "if" half without the bound |
| `Connection.NextReply` | src/process.cpp:429-435 | The first reply to come belongs to an earlier request if one was owed, and is the first message of the own answer otherwise |
| `Connection.DrainingRestoresOrderIff` | src/process.cpp:657-677 | Polling until the channel is empty clears what one-way and failed calls left, if and only if all requests have been answered and nothing over the limit was in the channel |
| `Connection.ReceiveInOrderIff` | src/process.cpp:412-563 | One round of either loop leaves nothing over if and only if it meets nothing over the limit and, while streaming, no notification |
| `Connection.ServedInOrderIff` | src/runtime.cpp:441-619 | Serving a request leaves nothing over if and only if the answer is one the waiting caller reads to its end |
| `Session.ProperAnswers` | src/runtime.cpp:441-619 | A blocking request that does not reach a streaming dispatcher, unless user code throws with a text over 1 MB, and a streaming call to a disciplined one, are always answered in the awaited form |
| `Session.CallAnswer` | src/runtime.cpp:468-496 | A non-streaming call of a registered service is answered by exactly one message, the dispatcher's response or error 3 with its exception's text, by none when that text is over 1 MB; of an unknown service by error 2 |
| `Connection.ReturnIsOwn` | src/process.cpp:429-435 | The reply that passes the sequence-id check is one of the awaited request's answers |
| `Connection.ReceiveKeeps` | src/process.cpp:412-440 | One round of the reply loop or the streaming loop keeps the connection's invariant |
| `Connection.ServicedKeeps` | src/runtime.cpp:417-619 | Taking the oldest request and sending its answer keeps the connection's invariant |
| `Connection.PollKeeps` | src/process.cpp:657-677 | Polling, which drops anything that is not a notification, keeps it, also when it meets a message over the limit |
| `Connection.IssueKeeps` | src/process.cpp:456-468 | Sending the next request, blocking, streaming or one-way, keeps it |
| `Connection.StreamKeepsOrder` | src/process.cpp:530-563 | While a stream is read in order, the chunks handed over so far followed by the replies in flight are exactly the answer |
| `Connection.NextOfStream` | src/process.cpp:542-563 | The next message of an orderly stream is one more chunk of the answer or its terminator |
| `Connection.UnaryKeepsOrder` | src/process.cpp:412-440 | While a call is awaited in order, the only reply in flight is its own |
| `Connection.OrderlyWait` | src/process.cpp:412-440 | With nothing left over and its reply in the channel behind any number of notifications, a call ends with exactly that reply, again leaves nothing over, and has dispatched every notification ahead of it |
| `Connection.ReceiveAllIsAwait` | src/process.cpp:412-440 | The rounds of the loop add up to the wait over what can be read: same notifications dispatched, same message taken, same messages left; and there are exactly as many rounds as notifications ahead, plus one for the message or exception that ends it |
| `Connection.OutcomeIsReturn` | src/process.cpp:442-488 | The outcome the caller sees is a payload if and only if the wait adds that payload as the return of the awaited request; otherwise it throws and nothing is added |
| `Client.AwaitTakesFirstReply` | src/process.cpp:412-440 | The wait takes the first reply whatever notifications surround it, succeeds if and only if that reply carries the awaited id, passes over exactly the notifications ahead and stops right behind the reply |
| `Client.OutcomeIsFirstReply` | src/process.cpp:442-488 | The outcome is payload b if and only if the first reply is the result b with the awaited id, service error (c, t) if and only if it is that error, and a timeout if and only if there is no reply |
| `Client.FiresOne` | src/process.cpp:398-410 | A notification of (o, p) with value v fires callback [(o, p)] with v if one is registered, and none otherwise |
| `Client.FiresInOrder` | src/process.cpp:398-410 | Over any messages the callbacks fired are those of the notifications with a registered key, each once, in the order of arrival |
| `Client.CallbackSeesItsProperty` | src/process.cpp:398-410 | A callback registered for one property only runs once per notification of that property, in order, with its values |
| `Client.SubscribedCallbackRuns` | src/process.cpp:412-440 | After subscribing, a wait runs that callback once for each notification of the property ahead of the first reply |
| `Outcomes.CallbackSeesEveryNotification` | src/process.cpp:398-440 | After any calm run a callback registered from the start has run once per notification of its property the service has sent, in order, but for those still in the channel |
| `Client.StreamingIsFaithful` | src/process.cpp:490-564 | For every disciplined dispatcher trace, with notifications anywhere among its messages, the handler sees exactly the chunks written, in order and empty ones included, and the call ends as the dispatcher did (completed, or service error 3 with the text), if and only if no notification comes ahead of the terminator and all fit |
| `Client.CollectsIff` | src/process.cpp:530-563 | Over any inbox with a stream in it, the loop collects exactly its chunks and stops behind its terminator if and only if everything up to there is within the limit and no notification |
| `Client.NotificationBreaksStream` | src/process.cpp:542-546 | A notification ahead of the terminator makes a streaming call fail |
| `Client.ServiceConnection.RecvReply` | src/process.cpp:412-440 | The receive loop computes the wait and fires the registered callbacks of the notifications it passes over, in order |
| `Client.ServiceConnection.DispatchNotification` | src/process.cpp:398-410 | A notification of property p of object o runs the callback registered for exactly (o, p) with its value, if there is one, and nothing else |
| `Client.ServiceConnection.Perform` | src/process.cpp:442-488 | One id, one message sent, one wait; the caller gets payload b if and only if the first reply is the result b with that id, and service error (c, t) if and only if it is that error |
| `Client.ServiceConnection.CreateObject` | src/process.cpp:693-735 | The reference returned is bytes 0 to 3 of the result as the type and bytes 4 to 7 as the signed id, and there is none for a shorter result |
| `Client.RefLayout` | src/wire.cpp:266-271 | The reference decoder reads exactly those bytes |
| `Client.ServiceConnection.CallStreaming` | src/process.cpp:490-564 | The streaming loop collects exactly what the specification reads off the inbox |
| `Client.ServiceConnection.CallStreamingReader` | src/process.cpp:566-581 | The collecting form returns a complete reader over those chunks, or the failure |
| `Client.ServiceConnection.CallOneway` | src/process.cpp:583-604 | A one-way call is an ordinary call message whose reply is not awaited |
| `Client.ServiceConnection.SubscribeProperty` | src/process.cpp:632-643 | Registers the callback and sends one subscribe message |
| `Client.ServiceConnection.PollNotifications` | src/process.cpp:657-677 | Takes one message and dispatches it if it is a notification |
| `Client.ServiceConnection.ReleaseObject` | src/process.cpp:737-760 | Sends a release unless the id is null |
| `Client.ServiceConnection.InitHandshake` | src/process.cpp:330-389 | Ends in the state the negotiation prescribes, and sends init_ack for versions from 1.1 |
| `Client.ServiceConnection.Supports` | src/process.cpp:679-687 | Finds exactly the methods in the list received |
| `Session.CallsComplete` | src/process.cpp:442-488 | In every run, on a connection with nothing left over or queued, calling a unary dispatcher that does not throw returns exactly the response it leaves, whatever notifications are under way or raised by it, if and only if arguments, response and those notifications stay within 16 MB each; otherwise it returns nothing |
| `Session.NothingServedBehind` | src/runtime.cpp:632-663 | In every run from there on, neither a request over 16 MB nor anything its connection sends behind it is ever answered |
| `Session.CalmCallsReturn` | src/process.cpp:412-440 | With no timeouts, one-way calls or failed streams before it, a call whose reply has arrived gets exactly that reply behind any number of notifications, and each of those has been dispatched once and in order |
| `Session.CalmRunsStayInOrder` | src/process.cpp:412-604 | After a run whose every step was calm for it a connection has nothing left over and has dispatched every notification it took (sufficient, not necessary: draining restores order) |
| `Session.StreamsAreDelivered` | src/process.cpp:490-564 | In every run, a streaming call to a disciplined dispatcher with nothing left over from before and its answer in the channel hands over exactly the chunks that dispatcher wrote, completes and leaves nothing over, if and only if no notification and nothing over the limit lies ahead of the answer's end; later messages do not matter |
| `Session.CallServed` | src/runtime.cpp:480-496 | Serving a unary call puts its one result at the end of the caller's channel, behind what was queued and what it raised |
| `Session.CallEnds` | src/process.cpp:412-488 | With its only reply at the end of the channel a call returns it if and only if the whole channel can be read |
| `Connection.StreamAllIsCollect` | src/process.cpp:530-563 | The rounds of the streaming loop add up to the specification of the whole loop over what can be read |
| `Connection.OrderlyStreamCompletesIff` | src/process.cpp:530-563 | The iff behind that, for any answer that is a stream |
| `Watching.NotifiedExactlyIff` | src/subscription.cpp:63-92 | In every run, every notification reaches an open connection exactly once if it watches the property and never otherwise, if and only if the connection watches everything that escaped connections have left at its address |
| `History.NotifiedIffSubscribed` | src/runtime.cpp:415-439 | In every run a notification of (o, p) goes to an open connection if and only if the last word it sent about (o, p) was a subscribe, or an escaped connection at its address had left a watch of it |
| `History.WatchesWhatItAskedFor` | src/runtime.cpp:417-439 | In every run a connection watches (o, p) if and only if a subscribe with that object and property was handled for it, and neither an unsubscribe of the same nor its end since |
| `Outcomes.PushesReachWatchers` | src/object.cpp:10-20 | In every run, when a request is served, every other open connection's channel grows by exactly the notifications that user code's pushes raise there: for each push of a live, subscribed object's watched property, its type, object, property and value, in order |
| `Outcomes.SubscriberIsNotified` | src/runtime.cpp:417-430 | Once a subscription to a live object is handled, in every run a later push of that property puts exactly that notification on the subscriber's channel, while the object lives and the subscriber still watches it |
| `Watching.NotifiedOnceIffWatching` | src/subscription.cpp:63-92 | In every run an open connection is sent a notification exactly once if it watches the property or inherited a watch of it, and never otherwise |
| `Outcomes.EarlySubscriptionIsSilent` | src/runtime.cpp:425-430 | A subscription ahead of the object's creation is kept, but the object created later is not linked, and what it pushes reaches nobody |
| `Watching.DestroyedTransportIsTargetIff` | src/subscription.cpp:74-90 | Between an escape and the next use of its address, notify still picks the destroyed transport for exactly the watches left there |
| `Watching.RaiseReachesWatchers` | src/subscription.cpp:63-92 | A notification at any moment of any run adds itself to the channel of each open connection that watches the property or inherited a watch of it, and nothing to the others |
| `Watching.RunKeepsWatches` | src/runtime.cpp:415-439 | In every run what the registry holds for an open connection's transport is its own set together with what escaped connections left at that address, and for any other address just what was left; the registry is tidy |
| `Watching.ApplyKeepsWatches` | src/runtime.cpp:415-439 | Every step keeps that agreement |
| `Watching.HandleSubs` | src/runtime.cpp:415-439 | Subscribe and unsubscribe change the registry's projection and the connection's own set alike; nothing else changes either |
| `Watching.KeysFollow` | src/runtime.cpp:415-439 | Whatever message is handled, a connection's own set and what was left at its address make up what the registry holds for it; subscribing or unsubscribing settles what was left for that key |
| `Watching.LeaveKeeps` | src/runtime.cpp:632-652 | A clean exit leaves no entry of the transport behind |
| `Watching.ReusedTransportInheritsWatches` | src/runtime.cpp:621-666 | After a loop that ended by an exception, a newcomer on the same transport is sent what the lost connection watched |
| `Subscriptions.SubscribeRefines` | src/subscription.cpp:10-44 | Subscribing adds one (subscriber, key) pair and unsubscribing removes one; no duplicates and no empty buckets |
| `Subscriptions.UnsubscribeAllRefines` | src/subscription.cpp:46-61 | unsubscribe_all removes exactly the pairs of one subscriber |
| `Subscriptions.NotifyTargets` | src/subscription.cpp:63-92 | A notification targets exactly the current subscribers of its key, once each |
| `Subscriptions.PairsSplit` | src/subscription.cpp:104-111 | The number of pairs is the sum of the bucket sizes |
| `Subscriptions.SubscriptionRegistry.Subscribe` | src/subscription.cpp:10-24 | The duplicate check and push do what the specification says |
| `Subscriptions.SubscriptionRegistry.Unsubscribe` | src/subscription.cpp:26-44 | The removal, with the empty bucket dropped |
| `Subscriptions.SubscriptionRegistry.UnsubscribeAll` | src/subscription.cpp:46-61 | The erase-while-iterating loop visits every bucket once |
| `Subscriptions.SubscriptionRegistry.SubscriberCount` | src/subscription.cpp:94-102 | The count of distinct subscribers of a key |
| `Subscriptions.SubscriptionRegistry.TotalSubscriptions` | src/subscription.cpp:104-111 | The cardinality of the set of pairs |
| `Lifecycle.NothingRemains` | src/runtime.cpp:621-666 | When every connection has left through the loop's return paths, only objects given extra references remain |
| `Loop.CleanLoopLeavesNothing` | src/runtime.cpp:621-666 | A connection's loop that ends through one of its return paths leaves no subscription of that connection and no object that was not live before; however it ends, no other connection's subscriptions change |
| `Loop.LoopCleansUp` | src/runtime.cpp:621-666 | The same from the middle of a loop, by induction over what is still to come |
| `Loop.LoopIsRun` | src/runtime.cpp:621-666 | The loop over any inbox leaves the service as the run does that serves the messages one by one and then leaves or, exactly when the loop ends by an exception, escapes |
| `History.HoldsWhatItCreated` | src/runtime.cpp:497-529 | In every run the objects a connection's end will release are those it created and has not released |
| `Outcomes.StaysLinkedInRuns` | src/runtime.cpp:425-429 | Over every run an object once subscribed to stays linked to the subscription registry while it lives |
| `Lifecycle.LiveObjectsAreTracked` | src/runtime.cpp:497-529 | In every run each live object without extra references is tracked by its creator, which has not been cleaned up after |
| `Lifecycle.DeletedAtMostOnce` | src/object.cpp:81-91 | In every run ids are negative, no object is deleted twice, nothing deleted is live, and every id handed out is live or deleted |
| `Lifecycle.IdsAreNeverReused` | src/object.cpp:31-51 | No step gives a new object an id that any object ever had |
| `Lifecycle.RunKeepsLives` | src/runtime.cpp:497-529 | The inductive invariant over creation, release, disconnection and extra references, over every run |
| `Lifecycle.ApplyKeepsLives` | src/runtime.cpp:497-529 | Every step keeps it |
| `Lifecycle.ServeKeeps` | src/runtime.cpp:497-529 | Handling one message keeps it, releases by other clients included |
| `Lifecycle.LeaveKeeps` | src/runtime.cpp:202-207 | Releasing what a connection tracked keeps it |
| `Objects.CreateIsFresh` | src/object.cpp:31-51 | A created object gets a negative, unused id; a missing factory or a failing one changes nothing |
| `Objects.ReleaseDeletes` | src/object.cpp:81-91 | Releasing a set of ids deletes exactly those whose last reference it was |
| `Objects.RemoteObject.Release` | src/object.cpp:81-91 | Tells whether the last reference went |
| `Objects.ObjectRegistry.CreateObject` | src/object.cpp:31-51 | The registry afterwards and the id, over distinct heap objects |
| `Objects.ObjectRegistry.AddRef` | src/object.cpp:71-79 | One more reference to an existing object only |
| `Objects.ObjectRegistry.Release` | src/object.cpp:81-91 | One reference less, the entry erased with the last |
| `Objects.ObjectRegistry.ReleaseTracked` | src/runtime.cpp:202-207 | One release for every tracked id, in any order |
| `Objects.ReleaseOneMore` | src/runtime.cpp:202-207 | Single releases add up to the release of a set |
| `Objects.LastReferenceDeletes` | src/object.cpp:71-91 | After any number of added references and releases a live object is still there if and only if there were fewer releases than references |
| `Service.OneAnswer` | src/runtime.cpp:441-619 | Every request that does not stream gets exactly one result or error, with its id; it gets none, and the connection's loop ends by an exception, if and only if user code throws with a text over 1 MB |
| `Service.UnaryAnswer` | src/runtime.cpp:480-496 | A unary dispatcher's response, or error 3 with its exception's text if that is at most 1 MB, is the whole answer; an unknown service is error 2 |
| `Service.ObjectRequestAnswer` | src/runtime.cpp:529-619 | Getting or setting a property or calling a method of a live object is answered by exactly the result with the response user code left, or by error 302 (3 for methods) with its exception's text up to 1 MB; of any other object by error 300 |
| `Service.CreateNames` | src/runtime.cpp:497-522 | Creation succeeds if and only if the type has a factory that makes an object; the answer is then the type in 4 bytes and an unused id in 4 signed bytes, that id is live with that type and one reference and tracked, and nothing else changes; otherwise error 301 |
| `Service.SubscribeLinks` | src/runtime.cpp:417-430 | A subscribe for a live object links it and adds the one watch |
| `Service.RepliesCarrySeq` | src/runtime.cpp:441-619 | Whatever user code does, every message to the asking connection carries the request's id |
| `Service.HandleKeepsSound` | src/runtime.cpp:411-619 | No message makes the object registry unsound, and none creates more than one object |
| `Service.ServiceRuntime.HandleMessage` | src/runtime.cpp:411-619 | The registries, the connection's tracking sets and the messages sent are those of the specification, and it throws exactly when the specification says so |
| `Service.ServiceRuntime.Reply` | src/runtime.cpp:441-619 | The request branches compute what the specification says; what that means for each request is in the laws on answers above |
| `Service.ServiceRuntime.OnObject` | src/runtime.cpp:529-619 | Property and object calls compute the specified answer (`Service.ObjectRequestAnswer` says which) |
| `Service.ServiceRuntime.Dispatch` | src/runtime.cpp:480-496 | User code runs, then its result or exception is sent |
| `Service.ServiceRuntime.ClientLoop` | src/runtime.cpp:621-666 | The whole loop with its three clean exits and the exception exit computes its specification, of which `Loop.CleanLoopLeavesNothing` and `Loop.LoopIsRun` say what it leaves |
| `Service.ServiceRuntime.Capabilities` | src/runtime.cpp:78-91 | The set capabilities plus streaming and objects when such features are registered |
| `Service.ServiceRuntime.HasMethod` | src/runtime.cpp:162-169 | Finds exactly the registered methods |
| `Service.ServiceRuntime.RunPushes` | src/object.cpp:10-20 | Only objects linked to the subscription registry notify through it |
| `Streams.StreamShape` | src/runtime.cpp:445-465 | For every dispatcher trace the client is sent exactly the chunks written before the stream was stopped, in order, and then the terminators |
| `Streams.OneTerminatorIff` | src/runtime.cpp:445-465 | Exactly one terminator is sent if and only if the dispatcher never ends its stream and then has an error sent, never aborts it without one, and never fails otherwise with a text over 1 MB; it is the error exactly when one is sent |
| `Streams.UndisciplinedExamples` | src/stream.cpp:90-107 | end() then throw sends two terminators; abort() then return, or a throw with a text over 1 MB, sends none |
| `Streams.BodyShape` | src/stream.cpp:74-107 | What a dispatcher body sends and in which state it leaves the writer |
| `Streams.StreamWriter.Write` | src/stream.cpp:74-88 | Sends the chunk, or fails after the end |
| `Streams.StreamWriter.End` | src/stream.cpp:94-107 | Sends one terminator, once |
| `Streams.StreamWriter.MoveFrom` | src/stream.cpp:60-72 | The overwritten stream is ended first and the source never ends its stream again |
| `Streams.ServeStream` | src/runtime.cpp:445-465 | Writer, dispatcher, exception handler and destructor together send the specified events and let the specified exceptions escape |
| `Streams.StreamReader.Chunk` | src/stream.cpp:124-131 | Hands out the chunks one by one, then fails |
| `Streams.ReadAll` | src/stream.cpp:113-131 | Reading until next() is false yields the remaining chunks in order |
| `CodecProofs.RoundTrip` | compiler/codegen.cpp:15-113 | For every supported type, nested arrays and structs recursive through arrays included, decoding the encoding followed by anything yields the value and stops exactly behind it |
| `CodecProofs.RoundTripIff` | compiler/codegen.cpp:190-214 | That round trip holds if and only if no list has 2^32 elements or more (generated array helpers cast the count) |
| `CodecProofs.RoundTripAll` | compiler/codegen.cpp:161-188 | The same for fields and array elements one after the other |
| `CodecProofs.ArrayRoundTrip` | include/song/buffer.hpp:116-203 | The same for counted arrays |
| `CodecProofs.MaybeRoundTrip` | python/song/buffer.py:271-284 | The same for optionals |
| `CodecProofs.PrimitiveRoundTrip` | src/buffer.cpp:108-256 | The same for every primitive type |
| `CodecProofs.EncodeFailsIff` | src/buffer.cpp:153-170 | Encoding fails if and only if a string, byte string or template array is over its limit |
| `CodecProofs.DecodedIsNarrow` | include/song/buffer.hpp:159-203 | No decoded list has 2^32 elements or more |
| `CodecProofs.Reencode` | compiler/codegen.cpp:66-113 | Whatever decodes encodes again to the very bytes read, up to the value of true flags |
| `Codec.Decode` | compiler/codegen.cpp:66-113 | Decoding is total on arbitrary bytes: it terminates with a typed value or an error, and the position moves only forward and never past the end |
| `Codec.DecodeArray` | include/song/buffer.hpp:159-203 | The same for arrays, whose count is limited where the code limits it |
| `Codec.DecodeAll` | compiler/codegen.cpp:174-214 | The same for fields and elements |
| `Codec.DecodePrimitive` | src/buffer.cpp:172-256 | The same for primitives, with the length limit of strings |
| `Bytes.LeRoundTrip` | src/buffer.cpp:117-143 | A number within its width survives its little-endian bytes |
| `Bytes.FromLeRoundTrip` | src/buffer.cpp:184-224 | Any bytes are the little-endian bytes of what they decode to |
| `Bytes.SignedRoundTrip` | src/buffer.cpp:113-127 | Two's complement loses nothing within range |
| `Layout.DigitAt` | src/buffer.cpp:117-143 | Byte k of an encoded integer is its k-th digit to the base 256 |
| `Layout.SignedImage` | src/buffer.cpp:113-127 | The encoding of a signed integer is its remainder modulo 256^w, of which it is the only preimage |
| `Layout.ScalarLayout` | src/buffer.cpp:113-182 | Every scalar, byte by byte |
| `Layout.EncodingsJoin` | compiler/codegen.cpp:161-172 | Encoding two field or element lists joined is joining their encodings |
| `Layout.ListLayout` | compiler/codegen.cpp:15-64 | A list stands behind its 32-bit count; the template helper refuses more than 2^20 elements |
| `Layout.ContainerLayout` | compiler/codegen.cpp:15-64 | An optional behind its flag byte, a struct as its fields |
| `Layout.EnumLayout` | compiler/codegen.cpp:216-240 | An enum is a signed and a flags type an unsigned 32-bit integer |
| `Layout.TypeOfCallIff` | compiler/codegen.cpp:15-64 | The values that the code emitted for a type can encode are exactly the values of that type |
| `BufferCodec.EncodeTo` | compiler/codegen.cpp:15-64 | Appending to a Buffer adds exactly the encoding, and fails only where the encoding does or the buffer would pass its limit |
| `BufferCodec.EncodeArrayTo` | include/song/buffer.hpp:116-157 | The same for the array loops |
| `BufferCodec.DecodeFrom` | compiler/codegen.cpp:66-113 | Reading from a Buffer returns the decoded value and leaves the read position behind it, or reports the error |
| `BufferCodec.DecodeArrayFrom` | include/song/buffer.hpp:159-203 | The same for the array loops |
| `PythonCodec.EncodersAgree` | compiler/python_codegen.cpp:66-132 | Within the common types and limits both generators' encoders produce the same bytes |
| `PythonCodec.DecodersAgree` | compiler/python_codegen.cpp:134-192 | Where the C++ decoder succeeds on UTF-8 text the Python decoder returns the same value at the same position |
| `PythonCodec.CrossLanguageRoundTrip` | compiler/python_codegen.cpp:66-257 | For the types both generators have codecs for, and as far as the emitted Python module loads, each language's decoder inverts the other's encoder |
| `PythonCodec.PyRoundTrip` | compiler/python_codegen.cpp:66-257 | Whatever the Python encoder accepts, also over the C++ limits, the Python decoder reads back and stops right behind it |
| `PythonCodec.PyDecode` | python/song/buffer.py:143-269 | The Python decoder is total and moves only forward |
| `PythonBuffer.PyEncodeTo` | compiler/python_codegen.cpp:66-132 | The emitted Python encoder writes exactly the encoding, and raises exactly where the encoding does |
| `PythonBuffer.PyDecodeFrom` | compiler/python_codegen.cpp:134-192 | The emitted Python decoder returns what the specification says and leaves the read position there, errors included |
| `PythonBuffer.PackTo` | python/song/buffer.py:80-138 | The primitive encoders |
| `PythonBuffer.UnpackFrom` | python/song/buffer.py:143-195 | The primitive decoders |
| `PythonBuffer.PyBuffer.Read` | python/song/buffer.py:40-49 | Takes the next bytes, or raises and moves nothing |
| `PythonBuffer.PyBuffer.Write` | python/song/buffer.py:36-38 | Appends |
| `Buffers.Buffer.Write` | src/buffer.cpp:90-97 | Appends exactly the bytes, or changes nothing when the size would wrap or pass half the address space |
| `Buffers.Buffer.EnsureCapacity` | src/buffer.cpp:63-88 | The doubling loop terminates without wrapping and keeps the contents; capacity is 4096 exactly while inline |
| `Buffers.Buffer.Read` | src/buffer.cpp:99-106 | Returns the next n bytes, or reports underflow and moves nothing |
| `Buffers.Buffer.MoveFrom` | src/buffer.cpp:38-61 | Takes over bytes and read position, leaves the source empty and inline, and does nothing on itself |
| `Buffers.Buffer.GrowthIsLinear` | src/buffer.cpp:63-88 | On a buffer never moved, growth has copied at most capacity minus 4096 bytes, less than twice the largest size held |
| `Buffers.RunPool` | src/buffer.cpp:23-106 | Any list of writes, reads, resets and moves over a pool of buffers: no storage block is ever shared, and contents and read positions are what the operations say, each touching only the buffers it names |
| `Buffers.Perform` | src/buffer.cpp:23-106 | The same for one operation |
| `Buffers.MoveApart` | src/buffer.cpp:38-61 | A move between two buffers of a pool leaves every block of the pool singly owned |
| `Framing.FramesOfConcat` | src/transport.cpp:292-376 | The byte stream of any list of well-formed messages splits into exactly those messages, then a clean end |
| `Framing.ReceiveAll` | src/transport.cpp:292-376 | Repeated receive returns those messages for every fragmentation of the stream into recv results |
| `Framing.TcpTransport.Receive` | src/transport.cpp:292-376 | One receive takes exactly one frame off the pending bytes, however they are split |
| `Framing.TcpTransport.Fill` | src/transport.cpp:325-369 | The recv loop collects n bytes unless the stream ends or fails |
| `Framing.TcpTransport.Send` | src/transport.cpp:267-290 | Partial sends add up to the message; a failing send has written a proper prefix |
| `Framing.SendAll` | src/transport.cpp:267-290 | A sequence of sends writes the concatenation of the messages |
| `Framing.FrameOfMessage` | src/transport.cpp:292-376 | A well-formed message followed by anything is framed back exactly |
| `Framing.FrameExactlyIff` | src/transport.cpp:345-352 | A message is framed back if and only if its payload length field is right and at most 16 MB |
| `Framing.StreamCutShort` | src/transport.cpp:325-369 | A stream that breaks off inside a message yields the messages ahead of it, then a clean end if fewer than 16 bytes of the last one arrived, an exception otherwise |
| `Secure.OpenUndoesSeal` | src/security.cpp:85-176 | With equal keys receive returns the bytes that were sent |
| `Secure.AcceptedIffSealed` | src/security.cpp:127-176 | What arrives is accepted, as a given message, if and only if it is byte for byte what a sender with the same configuration makes of that message |
| `Secure.TagOfWholeMessage` | src/security.cpp:85-176 | A sealed message ends with the tag of the very message sent, header and payload, and is accepted only as a message with that tag |
| `Secure.ForgeryNeedsCollision` | src/security.cpp:127-176 | Two different messages arriving with the same tag are both accepted only if the tag function collides on the messages accepted |
| `Secure.TwoDecorators` | src/security.cpp:85-176 | With two decorators the outer seals first and the inner opens first |
| `Secure.StackIsTransparent` | src/security.cpp:85-176 | Any stack of decorators gives the message back, and refuses it if and only if the enlarged payload would pass 16 MB |
| `Secure.SecureFramingEndToEnd` | src/security.cpp:85-176 | Messages sealed by a stack, sent over TCP and fragmented in any way arrive as sent, in order |
| `Secure.VerifyTag` | src/security.cpp:65-75 | The or-of-xor accumulator loop accepts exactly equal tags |
| `Secure.OrZeroIff` | src/security.cpp:70-74 | The accumulator stays zero only while nothing differs |
| `Secure.XorZeroIff` | src/security.cpp:70-74 | Two bytes xor to zero only if equal |
| `Secure.Seal` | src/security.cpp:85-125 | Header, payload and tag are assembled into the specified message |
| `Secure.Open` | src/security.cpp:127-176 | The receiving side of that |
| `Secure.SecureTransport.Send` | src/security.cpp:85-125 | What reaches the inner transport |
| `Secure.SecureTransport.Receive` | src/security.cpp:127-176 | What comes out of the inner transport's next frame |
| `Wire.ToServerRoundTrip` | src/wire.cpp:137-453 | Every message a client sends within its field widths decodes to itself |
| `Wire.ToClientRoundTripIff` | src/wire.cpp:155-258 | A message to a client decodes to itself if and only if its payload size, as the 32-bit field has it, is at most 16 MB |
| `Wire.HeaderRoundTrip` | src/wire.cpp:11-29 | Header fields come back, with the payload size reduced modulo 2^32 |
| `Wire.RequestRoundTrip` | src/wire.cpp:341-433 | The request payloads decode to themselves |
| `Wire.PropertyRoundTrip` | src/wire.cpp:300-338 | Property and object-method headers, with signed object ids, decode to themselves |
| `Wire.UnpackPack` | src/wire.cpp:11-29 | Fixed-width field lists survive packing with anything behind them |
| `Layout.FrameLayout` | src/wire.cpp:11-29 | The header byte by byte: magic 0x534F4E47, flags 0, kind, two zero bytes, payload size and sequence id, little-endian |
| `Layout.ToClientLayout` | src/wire.cpp:155-490 | Every message of a service, byte by byte |
| `Layout.RequestLayout` | src/wire.cpp:137-433 | Every request, byte by byte, with its kind |
| `Layout.ControlLayout` | src/wire.cpp:189-470 | Every other client message, byte by byte |
| `Layout.ServerRefuses` | src/wire.cpp:22-40 | Which bytes the service takes for a bad magic number, a malformed payload or an unknown kind, exactly |
| `Layout.ClientRefuses` | src/wire.cpp:31-40 | The same for the client, with its size and text limits |
| `Layout.InitMessageLayout` | src/wire.cpp:111-135 | The init message and its method list, byte by byte |
| `WireBuffer.CreateRequest` | src/wire.cpp:137-153 | Payload buffer and frame buffer together hold exactly the encoded request, for every kind of request |
| `WireBuffer.CreateReply` | src/wire.cpp:155-187 | The same for results, errors, stream messages and notifications |
| `WireBuffer.CreateFrame` | src/wire.cpp:155-168 | Header, then payload, with the 32-bit size field |
| `WireBuffer.DecodeReply` | src/process.cpp:429-430 | Reading a received frame field by field yields the decoded message |
| `WireBuffer.DecodeRequest` | src/runtime.cpp:417-571 | The same on the service side |
| `WireBuffer.DecodeHeader` | src/wire.cpp:20-40 | Plain and validated header decoding |
| `WireBuffer.WriteFields` | src/wire.cpp:11-18 | A run of integer encodes appends the packed fields |
| `WireBuffer.ReadFields` | src/wire.cpp:20-29 | A run of integer decodes returns the unpacked fields, or reports underflow |
| `Handshake.HandshakeSucceeds` | src/process.cpp:330-389 | When versions meet and the list fits a message, the client holds exactly the service's methods, the lower current version and the AND of the capabilities |
| `Handshake.ListsAgreeIff` | src/wire.cpp:111-135 | The handshake delivers the service's method list if and only if the init payload stays within 16 MB |
| `Handshake.VersionInBothRanges` | src/process.cpp:350-371 | The negotiated version lies in both ranges when the peer's first version is at most its current one |
| `Handshake.VersionsMeetIff` | src/process.cpp:350-368 | The two version rules accept exactly overlapping ranges |
| `Handshake.VersionsMustMeet` | src/process.cpp:350-368 | Versions that do not meet end in the version error whatever else the message holds |
| `Handshake.NegotiatedIffBoth` | src/process.cpp:373-375 | A capability is negotiated if and only if both sides have it |
| `Handshake.MethodsRoundTrip` | src/wire.cpp:63-77 | A method list of any length comes back |
| `Handshake.InitDecoded` | src/wire.cpp:42-61 | The init message reaches the negotiation field by field |
| `FrontEnd.ReadUndoesWrite` | compiler/parser.cpp:69-111 | However a source is laid out as text, lexing and parsing it gives its tree, or a rejection when a class member is taken for a constructor |
| `Printer.ParseUndoesPrint` | compiler/parser.cpp:69-111 | For every writable source, in any order of definitions and members, parsing the printed tokens gives its tree; it is rejected if and only if some class has a non-readonly property of its own type or a plain method of its own name |
| `Printer.TreeHasSource` | compiler/parser.cpp:69-111 | Every syntax tree is the meaning of some source |
| `Printer.MembersParsed` | compiler/parser.cpp:206-332 | Class members in any order, with the exact rejection condition |
| `Printer.MembersSorted` | compiler/parser.cpp:206-332 | Each kind of member goes to its own list, in the order written |
| `Printer.ClashRejected` | compiler/parser.cpp:217-226 | A clashing member is never parsed |
| `Printer.MarksBeforeNameRejected` | compiler/parser.cpp:281-309 | A non-readonly property of a user type with its array or optional marks before the name is rejected |
| `Printer.PropertyParsed` | compiler/parser.cpp:209-329 | Properties of all forms |
| `Printer.MethodParsed` | compiler/parser.cpp:464-513 | Methods with modifiers, parameters and throws clauses |
| `Printer.SignatureParsed` | compiler/parser.cpp:481-512 | Parameters, return type and throws clause |
| `Printer.ClassParsed` | compiler/parser.cpp:188-337 | Classes |
| `Printer.RecordParsed` | compiler/parser.cpp:125-151 | Structs and errors with optional bases |
| `Printer.EnumParsed` | compiler/parser.cpp:153-186 | Enums and flags with explicit and automatic values |
| `Printer.TypeParsed` | compiler/parser.cpp:526-557 | Types with any number of dimensions and the optional mark |
| `Printer.FieldsParsed` | compiler/parser.cpp:141-147 | Field lists |
| `Printer.DefinitionParsed` | compiler/parser.cpp:76-107 | Each kind of definition reaches its own list with its documentation |
| `Printer.DocGathered` | compiler/parser.cpp:20-33 | Documentation printed line by line is gathered back |
| `Printer.DocGatheredIff` | compiler/parser.cpp:20-33 | That holds if and only if it does not start with an empty line; leading empty lines are dropped |
| `ParserSpec.ParseMembers` | compiler/parser.cpp:206-332 | Terminates on every token list by consuming tokens |
| `ParserSpec.TypeSuffix` | compiler/parser.cpp:543-554 | The bracket loop terminates by consuming tokens |
| `Parser.Parser.Parse` | compiler/parser.cpp:69-111 | The parser object computes what the grammar says for the whole file |
| `Parser.Parser.Advance` | compiler/parser.cpp:20-33 | One token of lookahead, documentation gathered on the side |
| `Parser.Parser.ParseClass` | compiler/parser.cpp:188-337 | Follows the grammar |
| `Parser.Parser.ParseMember` | compiler/parser.cpp:206-332 | Follows the grammar, member disambiguation included |
| `Parser.Parser.ParseMethod` | compiler/parser.cpp:464-513 | Follows the grammar |
| `Parser.Parser.ParseType` | compiler/parser.cpp:526-557 | Follows the grammar |
| `Parser.Parser.ParseItems` | compiler/parser.cpp:168-182 | Follows the grammar, trailing comma included |
| `Parser.Parser.ParseDefinition` | compiler/parser.cpp:76-107 | Follows the grammar |
| `Parser.ParsePrinted` | compiler/parser.cpp:69-111 | The parser object run over a printed source returns its tree, or fails exactly on a clash |
| `Resolver.Resolver.Resolve` | compiler/resolver.cpp:29-40 | Accepts if and only if the definitions are well formed |
| `Resolver.WellFormedIff` | compiler/resolver.cpp:105-275 | What well formed means in terms of declarations alone: names declared once, every type used declared (bases and throws with the right kind), base chains that end, and no field, parameter, item or value twice where that is forbidden |
| `Resolver.LookupFinds` | compiler/resolver.cpp:91-103 | Looking a name up finds exactly its declaration |
| `Resolver.ValueOf` | compiler/resolver.cpp:366-378 | An enum item's value is the explicit one, else one more than the item before, else zero |
| `Resolver.TableHoldsDeclarations` | compiler/resolver.cpp:91-103 | Registration reports nothing if and only if names are unique, and the table then holds exactly the declarations |
| `Resolver.NewIffUnique` | compiler/resolver.cpp:91-103 | Declaring in order meets no known name if and only if all names differ from each other and from the table's |
| `Resolver.Resolver.RegisterTypes` | compiler/resolver.cpp:62-103 | The table is that of the declarations in order, the first of a name winning |
| `Resolver.Resolver.HasInheritanceCycle` | compiler/resolver.cpp:385-422 | True if and only if the base chain from the name never ends |
| `Resolver.Resolver.DetectCycle` | compiler/resolver.cpp:391-422 | Terminates, and answers for the start of the walk |
| `Resolver.RepeatNeverEnds` | compiler/resolver.cpp:399-402 | A chain that comes back to a name never ends |
| `Resolver.ChainRepeats` | compiler/resolver.cpp:399-402 | Such a chain repeats from there on |
| `Resolver.Resolver.CheckShadowing` | compiler/resolver.cpp:295-339 | The guarded ancestor walk terminates and, on a chain that ends, reports exactly the shadowed fields |
| `Resolver.ShadowingFound` | compiler/resolver.cpp:299-339 | The fields collected on the way are those of all ancestors |
| `Resolver.Resolver.CollectFields` | compiler/resolver.cpp:309-324 | The scan of all definitions finds exactly the fields of one name |
| `Resolver.Resolver.CheckValues` | compiler/resolver.cpp:366-378 | Reports nothing if and only if explicit and automatic enum values are all different |
| `Resolver.Resolver.CheckDistinct` | compiler/resolver.cpp:283-290 | Reports nothing if and only if the names are all different |
| `Resolver.Resolver.ValidateRecord` | compiler/resolver.cpp:142-160 | Reports nothing if and only if the struct or error is well formed |
| `Resolver.Resolver.ValidateClass` | compiler/resolver.cpp:162-192 | The same for classes |
| `Resolver.Resolver.ValidateMethod` | compiler/resolver.cpp:237-255 | The same for methods and their throws clauses |
| `Resolver.Resolver.ValidateInheritance` | compiler/resolver.cpp:257-275 | The same for base types |
| `Lexer.LexUndoesPrint` | compiler/lexer.cpp:163-296 | Any token list, with any white space and line comments between the tokens, is lexed back |
| `Lexer.SeparatorSkipped` | compiler/lexer.cpp:141-184 | White space and line comments make no difference to the next token |
| `Lexer.TokenScanned` | compiler/lexer.cpp:186-296 | Every spelling of a token is scanned as that token and no further |
| `Lexer.SpellsIff` | compiler/lexer.cpp:12-45 | Keywords, primitive types and punctuation are spelled as the language says and in no other way |
| `Lexer.NameIff` | compiler/lexer.cpp:225-241 | A word is a name if and only if it is no keyword |
| `Lexer.NumbersSpelled` | compiler/lexer.cpp:243-273 | Every number up to 2^63 - 1 has a decimal and a hexadecimal spelling, in either case of letters |
| `Lexer.PlaceCounts` | compiler/lexer.cpp:111-123 | The line is one more than the newlines ahead, the column one more than the characters since the last |
| `Lexer.NumberScanned` | compiler/lexer.cpp:243-273 | Decimal and hexadecimal literals up to 2^63 - 1 |
| `Lexer.Lexer.NextToken` | compiler/lexer.cpp:163-223 | The lexer object returns the scanned token with the line and column of its first character |
| `Lexer.Lexer.SkipWhitespace` | compiler/lexer.cpp:141-154 | In every state line and column are those of the consumed text |
| `Lexer.Lexer.TakeRun` | compiler/lexer.cpp:225-232 | Collects exactly the run of characters of a class |
| `Lexer.Lexer.LexInteger` | compiler/lexer.cpp:243-273 | Integer literals, with missing hex digits and overflow rejected |
| `Lexer.Tokenize` | compiler/lexer.cpp:163-223 | Calling next_token until the end yields the whole token list |
| `DataCopy.AnyOrderRebuilds` | sing/ipc/datacopy/datacopy_service.cpp:27-53 | Writing any permutation of chunks that partition a file rebuilds exactly that file |
| `DataCopy.InterleavedTransferRebuilds` | sing/ipc/datacopy/datacopy_service.cpp:27-53 | The same in every run, with writes, deletions and clears of other files in between |
| `DataCopy.RebuiltIff` | sing/ipc/datacopy/datacopy_service.cpp:27-53 | Stretches of a file, overlapping or repeated, rebuild it if and only if they reach its end and miss only zero bytes |
| `DataCopy.AssembledBytes` | sing/ipc/datacopy/datacopy_service.cpp:32-41 | Bytes written are kept, gaps are zero |
| `DataCopy.FilesAreIndependent` | sing/ipc/datacopy/datacopy_service.cpp:27-53 | In every run a file is what its own chunks since its last deletion assemble to |
| `DataCopy.CompleteIff` | sing/ipc/datacopy/datacopy_service.cpp:42-45 | In every run a file is complete if and only if a chunk marked final has arrived since it was last deleted |
| `DataCopy.SizeIsMaxEnd` | sing/ipc/datacopy/datacopy_service.cpp:46-50 | total_received is always the largest end offset so far |
| `DataCopy.StorageWithout` | sing/ipc/datacopy/datacopy_service.cpp:116-122 | The sum of file sizes does not depend on the order of summation |
| `DataCopy.WriteGrowsStorage` | sing/ipc/datacopy/datacopy_service.cpp:116-122 | A write grows the storage used by exactly what the file grew |
| `DataCopy.DataCopyService.WriteChunk` | sing/ipc/datacopy/datacopy_service.cpp:27-53 | Resize and copy leave exactly the specified file and report its size |
| `DataCopy.DataCopyService.GetStorageUsed` | sing/ipc/datacopy/datacopy_service.cpp:116-122 | The loop returns the sum of all file sizes |

## Left out

- Sockets, poll, pipes, processes, signals, TLS and service discovery: recv and send are modelled as moving some non-empty part of the bytes, ending the stream or failing.
- `PipeTransport::receive` and `ServiceProcess::receive`, which reject a short first header read, so fragmentation is stated for TCP only; receive timeouts appear as a call that fails.
- HMAC-SHA256 itself: an arbitrary function from key and bytes to 8 bytes. Floating-point values are opaque words of 4 and 8 bytes.
- Data races: handling a message, notifying and sending are single steps. `ObjectRegistry::get` hands out no pointers here.
- Callbacks or dispatchers that call back into the connection, the runtime or a registry while they run, and `register_object`.
- Moving a connection or process in mid-session, restart counters, extension slots, the manager, registry and logging.
- Error texts: errors carry their code and an uninterpreted text; the parser, resolver and lexer only say that they fail. The resolver counts its errors.
- Emitted source text: `Codec` and `PythonCodec` give the meaning of the emitted calls. Base classes and bases of structs are not encoded.
- C++ types that the emitted templates do not support: optional arrays, `bool[]`, `bytes[]`, arrays of user types with more than one dimension. Optionals follow the Python codec, since the C++ helper is not part of this model.
- PythonCodec.CrossLanguageRoundTrip: is about the emitted calls, not about whether the emitted Python module loads; it does not when a struct has an optional field ahead of a required one (the dataclass rejects the order, `compiler/python_codegen.cpp:207-211`), nor, since annotations are not postponed, when a struct mentions itself in a list.
- Python types without helpers: enums. Field names containing "req", which the Python generator rewrites, are not modelled either.
- Resolver.Values: enum values are unbounded integers, so the overflow after the largest 64-bit value is not modelled.
- DataCopy.Put: negative offsets, which the service does not check, are excluded by type, and sizes do not overflow.
- Session.Apply: a step that creates an object when no negative 32-bit id is left is not taken; nor is a request over 16 MB handled, where a size of 4 GB or more would wrap around in the size field and make the service read a part of it. After such a request only the end of the connection's loop is modelled.
- C++ structs that contain themselves through `std::optional` do not compile; the codec model allows them.
- Source locations in syntax trees; the lexer's lines and columns are proved.
- Input characters outside ASCII are rejected by the model's lexer unless they stand in a comment.
