# boost-dbus in Dafny

A model of the asynchronous D-Bus binding boost-dbus, with proofs about its three hard parts: the typed
marshaller, the delivery of messages on a multi-threaded io_service, and the state of the object server.

**Marshaller.** `Element` computes signatures by recursion over types, as the `constexpr` arrays do, and
relates them to the grammar of single complete types (D-Bus Specification, "Type System"). A message is a
flat token buffer (`Items`). `Packer.Message` writes it through nested containers: each open frame remembers
the declared signature, a write of another signature is refused, and closing a container writes its length
back. `Unpacker.Unpacker` reads it with bounded cursors. The writer is proved to append exactly the tokens of
the value; the reader is proved against `Read`, a function on trees of items that also says what a target
holds after a failure. `Marshalling` gives the exact success condition, its relation to signatures, and what
happens to targets that are not empty; `RoundTrip` and `RemoteCall` compose both directions into a call.

**Delivery.** `DeliveryQueue.Queue` holds the two critical sections of the queue. `QueueRuns` lets any number
of threads call them in any interleaving, with the unlock, the post and the delivery as separate steps.
`ServerRuns` puts everything together: libdbus' incoming queue and dispatch status, dispatch handlers, the
compare-and-swap of `start`, a filter chain that grows while messages are dispatched, a queue per filter, and a
handler per filter that registers itself again. `ServerDelivery` proves what holds in every run; `ServerReplies`
adds a log of the replies that the server's handlers send, while objects and methods are registered. `AsyncSend`
follows any number of `async_send` operations with their reference counts.

**Object server.** `Properties` is the update loop of one interface, `ObjectManager` any run of creations,
registrations and updates with the signals it emits and the snapshot it returns, `Introspection` the
directory listing.

Sources of the model are the files under `include/dbus`. Where the code falls short of what it is for, the model
keeps the code, and a condition says exactly when it does what it should:

- The comment in `async_send_op.hpp` suspects a race between `send_with_reply` and `set_notify`.
  `AsyncSend.CompletesExactlyOnce` shows that it is exactly this race that loses a handler, and
  `AsyncSend.EarlyReplyLosesHandler` gives the interleaving.
- The call of `dbus_pending_call_get_completed` after `set_notify` can come when the callback has already released
  the pending call: `AsyncSend.CheckFindsPendingCall`, with the interleaving in `AsyncSend.CheckAfterRelease`.
- The constructor of the server starts the pump before its second and third filter exist. A message dispatched
  before its filter was registered is lost, and no other is: `ServerDelivery.EverythingIsHandled`, with a lost
  call in `ServerDelivery.LateFilterLosesCall`.
- A FORCE update announces values that are never stored. `Properties.AnnouncedMatchesStored` says for which updates
  a subscriber stays equal nevertheless, `Properties.ForceDiverges` gives two for which it does not.
- `get_xml_for_path` tests a string prefix where a parent path is meant, and an object at "/" is shown as a node
  without a name instead of with its interfaces. `Introspection.ListsChildrenExactly` says exactly when the
  listing is the true directory, `Introspection.ShownUnlessRoot` where interfaces are shown;
  `Introspection.PrefixIsNotParent` and `Introspection.RootIsListedBelowItself` are the failing inputs.

What is assumed about libdbus: allocation succeeds; a received body is well typed (`Items.WellTyped`: containers
hold what they declare, numbers are in range, text has no NUL); an append iterator checks each value against
the signature declared for its container; one thread at a time dispatches, the dispatch status function is
called when the status changes, and the filters tried for a message are those registered when it is taken from the
queue, in the order in which they were added; a pending call is completed once and its notify function is called
then, if it is set; libdbus gives up its own reference to a completed pending call at some later time, no matter
when. Handlers return, and no exception leaves them.

## Model

| member | source | states |
|---|---|---|
| `Element.CodeArrayIsSignature` | include/dbus/element.hpp:186-263 | the nested fixed-size arrays hold the signature, one NUL at the end and none before it, at every nesting depth |
| `Element.ContainerCodeSplits` | include/dbus/message.hpp:160-162 | the two arguments of `open_container` are the array code and the element's own signature |
| `Element.PrefixFree` | include/dbus/element.hpp:204-263 | no complete signature is a proper prefix of another, structs and foreign basic types included |
| `Element.SplitsUniquely` | include/dbus/element.hpp:204-263 | a concatenation of signatures determines the signature of each argument |
| `Element.SameSignature` | include/dbus/element.hpp:241-263 | two types share a signature if and only if they differ at most in the kind of container |
| `Element.CodesOfTheSpecification` | include/dbus/element.hpp:58-125 | the type codes of the D-Bus Specification, and how arrays and dict entries are written |
| `Values.FindEmplaceAll` | include/dbus/message.hpp:446 | emplacing a list keeps order and every element already there, and of each new key the first occurrence |
| `Values.DictionaryOrder` | include/dbus/message.hpp:446 | text keys are ordered as `std::string` compares: a proper prefix is less, else the first difference decides |
| `Values.CutAtFirstNul` | include/dbus/message.hpp:200-208 | the text that survives `c_str()` is the part before the first NUL |
| `Values.RangesOfTheSpecification` | include/dbus/element.hpp:20-40 | each integer type has exactly the range of its size and signedness |
| `Items.PackedIsWellTyped` | include/dbus/message.hpp:153-225 | every container declares exactly the signature of every element packed into it, empty arrays included |
| `Packer.Message.AppendBasic` | include/dbus/message.hpp:141-145 | a basic value is written if and only if its code is what the innermost container awaits |
| `Packer.Message.OpenContainer` | include/dbus/message.hpp:160-165 | opening records the declared signature in a new frame, or changes nothing when the container does not fit |
| `Packer.Message.OpenDictEntry` | include/dbus/message.hpp:186-190 | a dict entry opens only as an array element and awaits the key and value the array declared |
| `Packer.Message.CloseContainer` | include/dbus/message.hpp:171 | frames close in nested order and the length is written back into the opening token |
| `Packer.Message.Pack` | include/dbus/message.hpp:132-208 | packing appends exactly the value's tokens, leaves enclosing containers open as they were and is never refused |
| `Packer.Message.PackContainer` | include/dbus/message.hpp:153-172 | the same for containers, element by element |
| `Packer.Message.PackPair` | include/dbus/message.hpp:184-198 | the same for dict entries |
| `Packer.Message.PackVariant` | include/dbus/message.hpp:210-225 | ignoring the inner return codes is harmless: the content always has the declared signature |
| `Packer.Message.PackArgs` | include/dbus/message.hpp:228-234 | any argument list packs; the signature grows by the concatenated element signatures; all containers are closed |
| `Unpacker.Unpacker.GetArgType` | include/dbus/impl/message_iterator.ipp:66-69 | the code of the item under the cursor, NUL exactly at the end of the container |
| `Unpacker.Unpacker.Next` | include/dbus/impl/message_iterator.ipp:51-54 | skips a whole item, however far a sub-cursor has read |
| `Unpacker.Unpacker.Recurse` | include/dbus/impl/message_iterator.ipp:76-79 | a sub-cursor bounded by the container's content |
| `Unpacker.Unpacker.Unpack` | include/dbus/message.hpp:241-356 | the cursor code stores what the tree specification says and ends behind the item, or in place on failure |
| `Unpacker.Unpacker.UnpackVariant` | include/dbus/message.hpp:313-332 | content of one of the ten alternatives is taken over, any other leaves the target and still succeeds |
| `Unpacker.Unpacker.UnpackVec` | include/dbus/message.hpp:398-419 | appends without clearing, keeps a half-read last element on failure, terminates at the end of the array |
| `Unpacker.Unpacker.UnpackAssoc` | include/dbus/message.hpp:421-450 | emplaces fresh elements, keeps those already emplaced on failure |
| `Unpacker.Unpacker.UnpackPair` | include/dbus/message.hpp:335-356 | key, then value, of a dict entry |
| `Unpacker.Unpacker.UnpackArgs` | include/dbus/message.hpp:241-247 | stops at the first argument that does not fit; on success stands exactly behind the last argument |
| `Marshalling.SucceedsWhenAccepted` | include/dbus/message.hpp:249-450 | unpack returns true if and only if the item is accepted by a recursive relation, whatever the target held |
| `Marshalling.ArgsSucceedWhenAccepted` | include/dbus/message.hpp:241-247 | the same for argument lists, with trailing arguments allowed |
| `Marshalling.SignatureImpliesAccepted` | include/dbus/message.hpp:249-450 | an item of the type's signature is accepted |
| `Marshalling.AcceptedExactly` | include/dbus/message.hpp:398-450 | without empty arrays outside variants acceptance is signature equality |
| `Marshalling.ArgsAcceptedBySignature` | include/dbus/message.hpp:241-247 | a body whose signature is the concatenation of the argument signatures is accepted; without empty arrays and trailing arguments no other is |
| `Marshalling.AcceptedWithOtherSignature` | include/dbus/message.hpp:402-419 | an empty array of another type and a trailing argument are accepted |
| `Marshalling.UnpackMerges` | include/dbus/message.hpp:334-450 | what unpack does to a target that is not empty, at any depth: arrays append, maps emplace, pairs do both members |
| `Marshalling.SuccessLeaves` | include/dbus/message.hpp:249-450 | what a target holds after success: old elements and then the decoded ones, emplaced elements, both members of a pair, the value itself |
| `Marshalling.FailureLeaves` | include/dbus/message.hpp:334-450 | what a target holds after failure: arrays and maps stop at the first misfit, pairs at their first member that does not fit, all else is untouched |
| `Marshalling.ArrayStopsAtMisfit` | include/dbus/message.hpp:398-419 | an array target ends with the elements before the first misfit and one more, as far as it was read |
| `Marshalling.DictStopsAtMisfit` | include/dbus/message.hpp:421-450 | a map target keeps the elements before the first misfit and nothing of it |
| `Marshalling.ArgsStopAtMisfit` | include/dbus/message.hpp:241-247 | arguments before the first misfit are unpacked, those behind it untouched |
| `Marshalling.MisfitLeavesEmptyElement` | include/dbus/message.hpp:402-419 | a string vector that reads an integer array is left with one empty string |
| `Marshalling.VariantTakesOver` | include/dbus/message.hpp:313-332 | content of the ten alternatives is taken over with its type and value, any other content succeeds and leaves the target |
| `Marshalling.DictKeepsFirst` | include/dbus/message.hpp:421-450 | after unpacking into a map each key has its old element, else the first in the message; the map stays ordered |
| `Marshalling.ReadKeepsType` | include/dbus/message.hpp:249-450 | a target keeps its type whatever well-typed message arrives, also when unpack fails halfway |
| `RoundTrip.ValueRoundTrip` | include/dbus/message.hpp:141-450 | unpacking a packed value into a fresh target succeeds and yields it cut at NULs, for every type |
| `RoundTrip.IdentityExactly` | include/dbus/message.hpp:141-450 | the round trip is the identity if and only if the value contains no NUL |
| `RoundTrip.ArgsRoundTrip` | include/dbus/message.hpp:228-247 | the round trip for any argument list |
| `RemoteCall.Call` | include/dbus/properties.hpp:112-136 | one reply on every path: INVALID_ARGS exactly for bodies that are not accepted, FAILED exactly when the handler throws, else a method return |
| `RemoteCall.ServedExactly` | include/dbus/properties.hpp:112-136 | the reply to any body: which error, or which signature and content, from what the handler does with the decoded arguments |
| `RemoteCall.Lookup` | include/dbus/properties.hpp:494-499 | the first object with the path |
| `RemoteCall.OnMethodCall` | include/dbus/properties.hpp:290-296 | at most one reply, and one exactly when the first object with the path has the interface and a lambda method of that name |
| `RemoteCall.FirstRegistrationWins` | include/dbus/properties.hpp:261-279 | over any sequence of registrations the first under a name stays |
| `RemoteCall.Complete` | include/dbus/connection.hpp:163-185 | the client handler gets an error code exactly for error replies, `invalid_argument` exactly for results that do not fit, and in each case these values |
| `RemoteCall.MisfitIsReported` | include/dbus/connection.hpp:163-185 | a client that expects an integer and gets a string: `invalid_argument` and zero |
| `RemoteCall.AsyncMethodCall` | include/dbus/connection.hpp:152-187 | pack, find the first object with the path, its interface and method, serve and complete, with the client's own types: a completion exactly when a lambda method answers, and then that of its reply |
| `RemoteCall.RemoteResultCode` | include/dbus/connection.hpp:163-185 | end to end, with any types on the client's side: exactly when each error code arrives, and with which values |
| `RemoteCall.ServedLocally` | include/dbus/properties.hpp:112-136 | with the method's own types the completion is the result of a local call after both passes through the wire |
| `RemoteCall.RemoteEqualsLocal` | include/dbus/connection.hpp:152-187 | with NUL-free arguments and results the client gets no error and exactly the handler's result, and an error if and only if it throws |
| `RemoteCall.AdvertisedTypesAreAccepted` | include/dbus/properties.hpp:36-83 | a call with the advertised "in" signature is never answered with INVALID_ARGS; a successful reply has the advertised "out" signature, for tuples and for single results |
| `RemoteCall.AdvertisedArguments` | include/dbus/properties.hpp:36-83 | direction, type signature and name of every advertised argument |
| `RemoteCall.AdvertisedResults` | include/dbus/properties.hpp:65-83 | unnamed results are advertised by number for a tuple and as "arg_0" for a single value |
| `DeliveryQueue.Queue.Push` | include/dbus/detail/queue.hpp:52-64 | the critical section of `push` and the closure left to post |
| `DeliveryQueue.Queue.AsyncPop` | include/dbus/detail/queue.hpp:66-97 | the critical section of `async_pop` and the closure left to post |
| `QueueRuns.NeverBothWaiting` | include/dbus/detail/queue.hpp:52-97 | in every interleaving messages and handlers never wait together, and each wait in the order they came |
| `QueueRuns.PairedInOrderAndOnce` | include/dbus/detail/queue.hpp:52-97 | the k-th message pushed is paired with the k-th handler registered, and the pair is in exactly one place, once: with one thread that has not posted it yet, posted, or delivered |
| `QueueRuns.OnlyPairsDelivered` | include/dbus/detail/queue.hpp:39-50 | nothing else is ever delivered |
| `FilterChain.Claim` | include/dbus/impl/filter.ipp:12-25 | the first filter in registration order whose predicate accepts the message |
| `FilterChain.ClaimOfPrefix` | include/dbus/impl/filter.ipp:29-31 | with only some filters registered a message goes where it would go with all, or to none; never to another |
| `FilterChain.Demultiplexed` | include/dbus/impl/filter.ipp:12-31 | each filter gets an in-order subsequence of the stream; a position belongs to the one filter that is first to accept it |
| `FilterChain.ServerDemultiplexing` | include/dbus/properties.hpp:420-466 | the server's filters cover exactly the method calls; Introspect and GetManagedObjects never reach the method filter |
| `Filters.Filter.Offer` | include/dbus/filter.hpp:27-31 | the message is pushed exactly when the predicate accepts it |
| `Filters.Filter.AsyncDispatch` | include/dbus/filter.hpp:43-51 | starts the connection, which posts a dispatch handler only if it was paused, and registers the handler with the filter's own queue |
| `Filters.OfferToChain` | include/dbus/impl/filter.ipp:12-31 | a message changes the queue of the first accepting filter and no other |
| `ServerRuns.TokenStep` | include/dbus/properties.hpp:435-505 | every step moves the one handler of a filter as described and never duplicates or drops it |
| `ServerRuns.RegistryStep` | include/dbus/impl/filter.ipp:29-31 | every step keeps: the filters tried for a message are those registered before it was dispatched |
| `ServerRuns.OrderStep` | include/dbus/detail/queue.hpp:52-97 | every step keeps: what a filter claims of the messages dispatched since its registration = handled, then in flight, then queued |
| `ServerRuns.PumpStep` | include/dbus/detail/watch_timeout.hpp:128-144 | every step keeps a dispatch handler pending while messages remain, and no message is lost between libdbus and the filters |
| `ServerDelivery.ExactlyOneHandler` | include/dbus/properties.hpp:435-471 | in every run an armed filter has exactly one of: a waiting handler, a thread with it, a posted closure |
| `ServerDelivery.HandlersNeverOverlap` | include/dbus/properties.hpp:475-505 | two threads never run the handler of one filter at a time |
| `ServerDelivery.HandledInArrivalOrder` | include/dbus/detail/queue.hpp:52-97 | in every run the messages handled by a filter are a prefix of those that arrived, were not dispatched before it was registered, and that it is first to accept |
| `ServerDelivery.NoLostWakeup` | include/dbus/detail/watch_timeout.hpp:128-144 | in every run, once started, a dispatch handler is pending while messages remain |
| `ServerDelivery.StartsOnce` | include/dbus/impl/connection.ipp:113-122 | concurrent `start` calls inject one initial dispatch handler |
| `ServerDelivery.PumpsAccounted` | include/dbus/detail/watch_timeout.hpp:128-144 | the first `start`, a status change to DATA_REMAINS and a dispatch that leaves messages post one dispatch handler each; nothing else does, and running one uses it up |
| `ServerDelivery.InternalDecreases` | include/dbus/detail/watch_timeout.hpp:128-144 | without new arrivals every step of pump, filters, queues and handlers decreases a measure |
| `ServerDelivery.RestMeansDrained` | include/dbus/detail/watch_timeout.hpp:128-144 | no thread is stuck: when no step is possible nothing is left to do |
| `ServerDelivery.EverythingIsHandled` | include/dbus/properties.hpp:475-538 | the number of further steps is bounded, and at rest every arrived message was handled once, in order, by the first filter accepting it, except exactly those dispatched before that filter was registered |
| `ServerDelivery.LateFilterLosesCall` | include/dbus/properties.hpp:420-471 | a run in which a GetManagedObjects call is dispatched between the start of the first filter and the registration of the second, and is lost |
| `ServerReplies.NeverTooManyReplies` | include/dbus/properties.hpp:475-538 | at any moment of any run every reply sent is what the objects answer to a message that arrived and that the sending filter is first to accept, and no message has two replies |
| `ServerReplies.EveryDueReplySent` | include/dbus/properties.hpp:475-538 | at rest a call that arrived when a method, Introspect or GetManagedObjects could answer it has exactly that answer, although objects and methods were added meanwhile, unless it was dispatched before its filter was registered |
| `ServerReplies.RepliesMatchRequests` | include/dbus/properties.hpp:420-538 | every reply sent is the document exactly for Introspect, the managed objects exactly for GetManagedObjects, and else the answer of the method named |
| `ServerReplies.EveryRequestAnswered` | include/dbus/properties.hpp:420-538 | at rest each such request that was dispatched in time has this very reply |
| `ServerReplies.RegistrationTakesEffect` | include/dbus/properties.hpp:261-279 | a registration during a run makes exactly the new methods answer, and only where nothing answered before |
| `ServerReplies.OnMethodCall` | include/dbus/properties.hpp:488-505 | the answers logged for the method filter are those of `on_method_call` |
| `ServerReplies.RegisterMethodGrows` | include/dbus/properties.hpp:261-279 | registering a method under any name never changes which method answers a call that was answered before |
| `AsyncSend.StepKeepsValid` | include/dbus/detail/async_send_op.hpp:41-89 | every statement keeps the relation between progress, ownership, reference counts and heap operations |
| `AsyncSend.CountsAreExact` | include/dbus/detail/async_send_op.hpp:41-89 | in every run, at every moment, the reply's count equals its owners, and handler and operation are used up at most once |
| `AsyncSend.CompletesExactlyOnce` | include/dbus/detail/async_send_op.hpp:53-84 | a completed call at rest has run its handler once and released everything if and only if, in the run, the reply did not come before the notify was set; otherwise all is leaked |
| `AsyncSend.EarlyReplyLosesHandler` | include/dbus/detail/async_send_op.hpp:60-71 | an interleaving in which the handler never runs |
| `AsyncSend.CheckFindsPendingCall` | include/dbus/detail/async_send_op.hpp:62-84 | the last statement of the initiation finds the pending call alive if and only if not both the callback and libdbus have given up their references before it in the run |
| `AsyncSend.CheckAfterRelease` | include/dbus/detail/async_send_op.hpp:62-84 | an interleaving in which the last statement of the initiation uses a released pending call |
| `Properties.DbusInterface.SetProperties` | include/dbus/properties.hpp:220-247 | FORCE announces the input and keeps the map; otherwise the input is applied and the entries at the effective positions are announced, duplicate keys included |
| `Properties.PositionsExact` | include/dbus/properties.hpp:232-246 | the announced entries are a subsequence of the input: exactly those that change the running map |
| `Properties.AnnouncedExactly` | include/dbus/properties.hpp:229-247 | FORCE announces all of the input and stores nothing; otherwise exactly the entries that change the running map are announced, and all of the input is stored |
| `Properties.EffectiveSuffice` | include/dbus/properties.hpp:232-246 | applying only the announced entries to the old map gives the new map |
| `Properties.ChangesNothing` | include/dbus/properties.hpp:232-246 | a list of updates changes nothing if and only if the last value given for each key is already stored |
| `Properties.AnnouncedMatchesStored` | include/dbus/properties.hpp:229-247 | a subscriber stays equal if and only if the mode is VALUE_CHANGE_ONLY or, for every key forced, the last value given for it is already stored |
| `Properties.ForceDiverges` | include/dbus/properties.hpp:229-230 | FORCE updates after which a subscriber differs: a new value, and a stored one followed by another |
| `ObjectManager.OnGetManagedObjects` | include/dbus/properties.hpp:507-530 | the snapshot shows each listed object with all its interfaces and their current properties, in order |
| `ObjectManager.StepAgrees` | include/dbus/properties.hpp:370-394 | every creation, registration and update keeps a subscriber's replica equal to the server |
| `ObjectManager.UpdateAgreesExactly` | include/dbus/properties.hpp:220-259 | on a registered interface an update keeps the replica equal if and only if it is VALUE_CHANGE_ONLY or forces only what is stored |
| `ObjectManager.UpdateAnnounces` | include/dbus/properties.hpp:249-258 | each update of a registered interface sends one signal, with all of the input under FORCE, even if nothing changed |
| `ObjectManager.NewObjectAnnounces` | include/dbus/properties.hpp:308-312 | an object is created with the Properties interface, and announces it |
| `ObjectManager.ReplicaConverges` | include/dbus/properties.hpp:507-530 | after any legal run, replaying all signals gives what GetManagedObjects says, and nothing else once all objects are listed |
| `ObjectManager.SnapshotInOrder` | include/dbus/properties.hpp:507-530 | a snapshot has each object once, with its interfaces in strict name order |
| `Introspection.GetXmlForPath` | include/dbus/properties.hpp:556-677 | the loop with its set of seen names computes the listing |
| `Introspection.ListingExact` | include/dbus/properties.hpp:570-675 | the document has one part per object that matches or is the first to contribute its node, in the order of the objects |
| `Introspection.ListedInOrder` | include/dbus/properties.hpp:662-672 | child nodes appear in first-appearance order |
| `Introspection.NoDuplicates` | include/dbus/properties.hpp:666-672 | no child node appears twice |
| `Introspection.ListsChildrenExactly` | include/dbus/properties.hpp:662-672 | every child is listed, and only children if and only if no path contributes an empty name and each path overrunning the queried one contributes a child's name |
| `Introspection.ListsTrueDirectory` | include/dbus/properties.hpp:662-672 | without overrunning paths and empty names the listing is the true child set |
| `Introspection.PrefixIsNotParent` | include/dbus/properties.hpp:662-665 | a listing with a node that is no child |
| `Introspection.RootIsListedBelowItself` | include/dbus/properties.hpp:556-672 | the listing of "/" when an object is registered there: a node without a name, though nothing is below |
| `Introspection.ShownUnlessRoot` | include/dbus/properties.hpp:556-572 | an object's interfaces are shown at its own path if and only if this is not "/"; a document has interfaces exactly when its path is that of an object and not "/" |
| `Introspection.WalkReaches` | include/dbus/properties.hpp:556-677 | following listed nodes from "/" reaches every registered well-formed path other than "/" in as many steps as it has components, and shows its interfaces there |

## Left out

- libdbus internals and the byte-level wire format (alignment, endianness, length limits): the token buffer stands for them.
- `Packer.Message.AppendBasic`: does not refuse invalid UTF-8 or malformed object paths, because validating text is libdbus' business.
- `Packer.Message.Pack`: takes types allowed by the D-Bus Specification only (dict entries inside arrays, basic keys); others compile in C++ but are refused by libdbus.
- `TDouble` values are reals: a double is only carried and compared here; NaN comparison is not modelled.
- Packing of `signature` values (the source has no overload for it), pointers as elements, `vector<bool>` and template overload resolution.
- `ServerRuns.TokenStep`: `start`, the dispatch handlers and the re-arming of handlers are steps of a state machine, not methods, because the claims are about interleavings; the queue and filter code they run is `DeliveryQueue.Queue` and `Filters.Filter`.
- `ServerRuns.OrderStep`: filters are added at any time; removing a filter during a run is not modelled.
- `ServerReplies.NeverTooManyReplies`: the log says that an introspection document or the managed objects were sent, not their content, which `Introspection` and `ObjectManager` give; registering an object or a method is one step, although the source does not lock the list of objects.
- `ServerReplies.RegisterMethodGrows`: an interface is registered once per object and name; registering another under the same name would replace it.
- `AsyncSend.StepKeepsValid`: reference counts are followed for the reply of `async_send`; the same three calls in `message::new_call` and its siblings are not repeated.
- Sockets, watches and timers; `connection::open`, `request_name`, `match`, `error`, endpoints and stream printing.
- The queue's copy constructor and `cancel`, which the source marks as unfinished.
- `remove_object`: calls `std::remove` without erasing; the object list is append-only here.
- The XML text of an introspection document: the listing is a sequence of interface blocks and node names.
- `ObjectManager.StepAgrees`: runs in which a path or an interface name of an object is used twice, or an interface is registered twice, are excluded; the replica is keyed by the object name in the body, not by the path in the signal header.
- `ObjectManager.OnGetManagedObjects`: property dictionaries are maps, so the order of properties within one interface is not modelled.
- The handlers of `org.freedesktop.DBus.Properties` (`Get`, `GetAll`, `Set`): lookups in the maps modelled here.
