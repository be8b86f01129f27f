# Verification of the colliderDEX desktop client

Four stateful components, each modelled on its own and proved in Dafny 4.11.
`dafny verify dfyconfig.toml` checks the whole project.

- **Web channel client** (`atomic_defi_design/Dex/Games/qwebchannel.js`). `Wire`, `QObjects` and `Registry` hold the data
  and the specification functions. `Reading` says, without any store, which objects
  a tree makes a client register and how it reads; `Unwrapping`, `TwoPasses` and
  `InitResponse` prove that of unwrapping. `Delivery`, `Runs` and `Subscriptions`
  treat signals, updates and whole runs, `Requests` requests and responses;
  `Channel` holds the `QWebChannel` class with the source's methods.
  The main results: unwrapping a host's object tree in one re-entrant pass
  computes what registering everything first would, exactly when no object is
  mentioned before it is announced; caches never hold a wrapper; signal
  subscriptions stay in step with the host while objects come and go; responses
  reach their own callbacks under arbitrary re-entrancy; an idle message answers
  every update but those that destroy their object half-way.
- **Address book** (`src/core/atomicdex/managers/addressbook.manager.cpp` and `src/core/atomicdex/models/qt.addressbook.contact.model.cpp`). `AddressBook` and `Manager` refine nested
  lists to a map of cards; `Entries` and `ContactModel` treat the editable working
  copy, its save and its reload.
- **ModelHelper** (`src/core/atomicdex/models/modelhelper.cpp`). `Coherence` states which change signals keep a cached
  cell equal to the model; `ModelHelper` has the classes.
- **Application** (`src/app/app.cpp`). `Lifecycle` is the transition system of queues, flags
  and status with event handlers on other threads; `App` has the class, whose
  methods are its uninterrupted runs; `CoinLists` has the lists for mm2.

## How to read the model

A re-entrant call is split where foreign code runs. `handleResponse` is
`BeginResponse` (up to the call of the callback) and `EndResponse` (the delete);
between them anything may happen. In `Lifecycle` the GUI thread takes one step at a
time and a handler's pushes are steps of their own, so a run is any interleaving.

History variables carry what the source does not store: the wire cache an object
was announced with and how often it was unwrapped (`raw`, `passes`), requests
numbered in order of issue, tickers pushed, consumed and initialised.

Where the code and its documentation or evident intent differ, the model follows
the code and a lemma names the difference.

- The comment at `atomic_defi_design/Dex/Games/qwebchannel.js:221-224` says a destroyed object becomes an empty one. Its
  property accessors are not enumerable, so they stay and throw when used; the model
  treats any use of a destroyed object as impossible.
- `disconnect` does not exempt the destroyed signal although `connect` does:
  `QObjects.DestroyedProtocol` says exactly when this sends a stray message.
- An object mentioned before it is announced, even in the same message, is read as
  undefined: `TwoPasses.UnwrapIsTwoPass`, `TwoPasses.MissedMention`.
- An update that destroys its object before its last emission throws, and the
  message it came in is never answered by idle: `Runs.FlowControl`,
  `Runs.MissingIdle`.
- `atomic_defi_design/Dex/Games/qwebchannel.js:106-109` tests for a value the counter never reaches: it sticks at 2^53
  (`Requests.NeverWraps`, `Requests.IdsDistinctExactly`). The arithmetic is that of
  section 6.1.6.1 of ECMA-262.
- The header of the contact model promises that an entry is refused if its key
  exists in its type; the code compares concatenations
  (`ContactModel.PairsDistinctIsWeaker`, `ContactModel.RemoveAbsent`).
- `src/core/atomicdex/models/modelhelper.cpp:54` connects the wrong signal (`Coherence.ColumnRemovalExactly`).
- `erase` with one iterator after `std::remove_if` filters only a type that occurs
  exactly once (`Manager.RemoveIfAndErase`).
- A type that is both a ticker and a coin type is read back twice
  (`ContactModel.EditsKeepConcatExactly`).
- Disabling puts the coins with the parent-fee flag first, but a parent can carry
  the flag itself and then precede its token
  (`CoinLists.TokenBeforeParent`, `CoinLists.ParentBeforeToken`).
- The limit on enabled coins does not count fee parents (`CoinLists.EnableCoins`).
- A push can fall into the gap between draining a queue and unsubscribing
  (`Lifecycle.IsolationExactly`, `Lifecycle.TickerLeaks`).

## Model

| member | source | states |
|---|---|---|
| `Registry.Unwrap` | atomic_defi_design/Dex/Games/qwebchannel.js:191-231 | unwrapping only adds: no id is rebound and no existing object changes, whatever the tree; it terminates on every finite tree |
| `Registry.UnwrapSlots` | atomic_defi_design/Dex/Games/qwebchannel.js:233-238 | unwrapping an object's cache changes nothing of that object but the values in its slots, and no other existing object |
| `Reading.NewsAllNew` | atomic_defi_design/Dex/Games/qwebchannel.js:208-217 | a client takes up each id that a tree announces at most once, and none it knows |
| `Reading.EarlierFirst` | atomic_defi_design/Dex/Games/qwebchannel.js:193-210 | of several announcements in a list the earlier ones are taken up first and as they stand, whatever comes after |
| `Reading.ReadIsSubst` | atomic_defi_design/Dex/Games/qwebchannel.js:193-215 | the one-pass reading of a tree is its substitution instance if and only if no mention without data comes before its id is known, in reading order |
| `Reading.SlotIsSubst` | atomic_defi_design/Dex/Games/qwebchannel.js:233-238 | the same for each slot of a cache, given what the slots before it announce |
| `Reading.ReadClean` | atomic_defi_design/Dex/Games/qwebchannel.js:193-231 | no wrapper is left in what has been read |
| `Unwrapping.UnwrapOk` | atomic_defi_design/Dex/Games/qwebchannel.js:191-231 | on any host tree: the objects registered are exactly the news of the tree, in order, each made from the data announced for it; each is unwrapped exactly once, cycles included; the result is the reading of the tree |
| `Unwrapping.UnwrapStands` | atomic_defi_design/Dex/Games/qwebchannel.js:193-230 | whatever the order: lists and plain objects keep their shape, other values stay, each wrapper with data becomes the one object registered under its id, and one without that or undefined; so in the value and in every slot of every new object |
| `Unwrapping.UnwrapNewOk` | atomic_defi_design/Dex/Games/qwebchannel.js:217-230 | an object registers itself before its properties are unwrapped: it is the first of its own news, and the nested ones follow, knowing it |
| `Unwrapping.UnwrapAllOk` | atomic_defi_design/Dex/Games/qwebchannel.js:193-206 | list elements and members are unwrapped in order, each knowing what those before it announced |
| `Unwrapping.UnwrapSlotsOk` | atomic_defi_design/Dex/Games/qwebchannel.js:233-238 | slot by slot a cache goes from the announced values to their readings, even while nested objects refer back to it |
| `TwoPasses.UnwrapIsTwoPass` | atomic_defi_design/Dex/Games/qwebchannel.js:191-231 | one pass gives the same store and value as registering all news first and then putting references everywhere, if and only if no mention is missed in the tree or in the data it carries; the registry is the same in any case, and the value if and only if the tree itself is in order |
| `TwoPasses.MissedMention` | atomic_defi_design/Dex/Games/qwebchannel.js:212-215 | an id mentioned before it is announced in the same list is read as undefined, and announced first as the object |
| `Unwrapping.SecondUnwrapCreatesNothing` | atomic_defi_design/Dex/Games/qwebchannel.js:208-210 | interning across messages: as long as the ids a tree names are bound as they were, receiving it again creates and changes nothing, and it reads as before if and only if no mention was missed |
| `Unwrapping.CreatesNothingExactly` | atomic_defi_design/Dex/Games/qwebchannel.js:208-230 | receiving a tree creates and changes nothing if and only if every id it announces is registered |
| `InitResponse.RootsAreDone` | atomic_defi_design/Dex/Games/qwebchannel.js:159-167 | the loop over the registered objects finds each root still raw, and leaves it, and the objects it announces, read with the ids known by then |
| `InitResponse.InitUnwrapsEverything` | atomic_defi_design/Dex/Games/qwebchannel.js:159-173 | after the init response the objects are exactly the roots and those announced inside them; each was unwrapped exactly once, from the data announced for it, and holds no wrapper; its cache is the reading of that data with the ids known by then, and the two-pass reading if and only if the data is in order |
| `InitResponse.InitLeavesReady` | atomic_defi_design/Dex/Games/qwebchannel.js:159-190 | no callback is connected to a root then, and only the client's own to a nested object |
| `Wire.PutThenGet` | atomic_defi_design/Dex/Games/qwebchannel.js:308-314 | assigning one key of a property cache changes the value read at that key and at no other |
| `Wire.RawCacheReads` | atomic_defi_design/Dex/Games/qwebchannel.js:383-391 | a new object's cache reads, at each property's index, the last value announced for it |
| `Wire.GetIs` | atomic_defi_design/Dex/Games/qwebchannel.js:403-411 | a cache reads at an index what its slot there holds, and undefined where it has none |
| `Registry.MembersAre` | atomic_defi_design/Dex/Games/qwebchannel.js:240-247 | an object's signals are exactly those its properties notify by, under the name sent or else the property's name with Changed behind it, and those listed |
| `Registry.ListedSignalIsPure` | atomic_defi_design/Dex/Games/qwebchannel.js:436-438 | a listed signal is pure and goes by its own index, the last one of its name winning |
| `Registry.NotifySignalIsNotify` | atomic_defi_design/Dex/Games/qwebchannel.js:393-399 | a property's notify signal, its name reconstructed if optimised away, is one under the property's index unless a listed signal has its name |
| `Registry.AnnouncedIsWatched` | atomic_defi_design/Dex/Games/qwebchannel.js:217-218 | a nested object has the client's own callback connected to destroyed, for which nothing is sent |
| `QObjects.SubscriptionProtocol` | atomic_defi_design/Dex/Games/qwebchannel.js:240-293 | for an index of pure signals, in every run of connect and disconnect on an object, the two messages strictly alternate starting with connect and the host is subscribed exactly while a callback is connected |
| `QObjects.PureStep` | atomic_defi_design/Dex/Games/qwebchannel.js:262-290 | a call on a pure signal sends connectToSignal exactly when the list becomes non-empty, disconnectFromSignal exactly when it becomes empty, nothing otherwise |
| `QObjects.ConnectDoes` | atomic_defi_design/Dex/Games/qwebchannel.js:245-270 | connect puts the callback last; connectToSignal is sent exactly if it is then the only one, the signal is no property's, and its name is none of the three spellings of destroyed |
| `QObjects.DisconnectDoes` | atomic_defi_design/Dex/Games/qwebchannel.js:271-291 | disconnect takes out the first occurrence and keeps the order of the rest; disconnectFromSignal is sent exactly if none is left and the signal is no property's; a callback not connected changes nothing |
| `QObjects.NotifyIsSilent` | atomic_defi_design/Dex/Games/qwebchannel.js:254-256 | notify signals never send either message |
| `QObjects.DestroyedProtocol` | atomic_defi_design/Dex/Games/qwebchannel.js:258-290 | for the destroyed signal only disconnects are sent, one for each emptying of its list, so the protocol holds exactly when the list is never emptied |
| `QObjects.PinnedNeverEmpties` | atomic_defi_design/Dex/Games/qwebchannel.js:218-227 | an object created by unwrapping keeps the client's own destroyed callback, so user calls never empty that list |
| `QObjects.StrayDisconnect` | atomic_defi_design/Dex/Games/qwebchannel.js:258-290 | on an object without that callback, one connect and disconnect of destroyed sends a disconnect no connect preceded |
| `QObjects.DisconnectUndoesConnect` | atomic_defi_design/Dex/Games/qwebchannel.js:245-291 | disconnecting what was just connected restores the callbacks as a multiset, the list itself if the callback was new, and the subscription state |
| `Subscriptions.LivingProtocol` | atomic_defi_design/Dex/Games/qwebchannel.js:240-293 | the same protocol in every run of a whole channel, for as long as the object lives, whatever messages arrive and whatever happens to other objects |
| `Subscriptions.HostAgreesThroughout` | atomic_defi_design/Dex/Games/qwebchannel.js:208-293 | in every run from the init response, for every id and pure index, the host, which drops subscriptions with the object, is subscribed exactly if the object now under that id has a callback connected, however many were destroyed and announced again under it |
| `Subscriptions.NewIsUnconnected` | atomic_defi_design/Dex/Games/qwebchannel.js:217-218 | an object announced under an id again starts with no callback at a pure index |
| `Delivery.InvokeExact` | atomic_defi_design/Dex/Games/qwebchannel.js:298-306 | delivering a signal changes the store only by the object's own destroyed callback, and its callbacks report as specified |
| `Delivery.ReportsAre` | atomic_defi_design/Dex/Games/qwebchannel.js:298-306 | every connected user callback runs once, in connection order, with the given arguments, and sees the object's cache unless the signal destroys the object |
| `Delivery.UsersAre` | atomic_defi_design/Dex/Games/qwebchannel.js:302-304 | the user callbacks of a list, in its order |
| `Delivery.SeenAround` | atomic_defi_design/Dex/Games/qwebchannel.js:218-227 | where a signal destroys its object, callbacks connected before the destroyed callback see the cache, and those behind it none |
| `Delivery.SignalReachesCallbacks` | atomic_defi_design/Dex/Games/qwebchannel.js:121-129 | a signal runs exactly the callbacks connected to it, in order, once each, on the reading of the host's arguments, and destroys the object exactly if its own destroyed callback is among them; one for an unknown object does nothing |
| `Delivery.DestroyOk` | atomic_defi_design/Dex/Games/qwebchannel.js:218-227 | the destroyed callback, if the object is still the one registered, unbinds its id and empties it, and otherwise does nothing; every other object stays as it was and the registry consistent |
| `Delivery.DestroyedIsForgotten` | atomic_defi_design/Dex/Games/qwebchannel.js:208-227 | after destruction the id resolves to nothing until announced again, and then to an object never seen before |
| `Delivery.PutAllOk` | atomic_defi_design/Dex/Games/qwebchannel.js:308-314 | the first loop of propertyUpdate leaves at each key the last value given for it, read in its place among the others, the old value elsewhere, and other objects alone |
| `Delivery.PutAllUnwraps` | atomic_defi_design/Dex/Games/qwebchannel.js:308-314 | the objects announced in an update's new values are registered in order and unwrapped once each, as in any other tree |
| `Delivery.EmitExact` | atomic_defi_design/Dex/Games/qwebchannel.js:316-320 | the second loop runs, emission by emission and in connection order, exactly the callbacks of each emission's signal with that emission's arguments, up to the first emission that destroys the object; it throws if and only if that is not the last |
| `Delivery.UpdateDelivers` | atomic_defi_design/Dex/Games/qwebchannel.js:308-321 | a property update writes the cache, then does exactly that, each callback on the cache as written |
| `Delivery.UpdateIsAtomic` | atomic_defi_design/Dex/Games/qwebchannel.js:308-321 | so every callback of one property update sees all of its new values in the cache, those on a signal that destroys the object aside; the update throws if and only if such an emission is not its last |
| `Delivery.UpdatesThrow` | atomic_defi_design/Dex/Games/qwebchannel.js:141-150 | handling a property-update message throws if and only if an entry is, when its turn comes, for a registered object that an emission but the last destroys |
| `Delivery.UpdatesDo` | atomic_defi_design/Dex/Games/qwebchannel.js:141-150 | a property-update message does what its entries do, one after the other, up to the first that throws: nothing for an unknown object, else new values, callbacks and destruction as above, the logs in order |
| `Delivery.SmoothAtOnce` | atomic_defi_design/Dex/Games/qwebchannel.js:141-150 | for a message with one entry each for registered objects, that can be read off the state before it |
| `Runs.SetterReadsBack` | atomic_defi_design/Dex/Games/qwebchannel.js:412-427 | assigning a property changes that key only and is announced once; a live object is sent as its id, anything else, objects inside lists included, as it is; undefined is ignored |
| `Runs.Effect` | atomic_defi_design/Dex/Games/qwebchannel.js:75-95 | every message or user call keeps: consistent registry, clean caches, one unwrapping per object, no destroyed callback but an object's own |
| `Runs.NextDoes` | atomic_defi_design/Dex/Games/qwebchannel.js:75-152 | what each event of a run does to store, callbacks and messages sent: signals, updates, results, connects, disconnects and assignments, without reference to the functions that compute it |
| `Runs.EffectKeeps` | atomic_defi_design/Dex/Games/qwebchannel.js:75-95 | no message from the host changes the callbacks of a living object |
| `Runs.RunLineage` | atomic_defi_design/Dex/Games/qwebchannel.js:75-95 | over any run handles keep their ids and dead objects stay dead |
| `Runs.RunsStayGood` | atomic_defi_design/Dex/Games/qwebchannel.js:75-173 | in every run from the init response no cache ever holds a wrapper, and an id stays bound to the same object until that object is destroyed |
| `Runs.InterningOverRuns` | atomic_defi_design/Dex/Games/qwebchannel.js:208-210 | sending a tree again after any run creates and changes nothing if and only if what it announces is registered, as it is if none of the objects it names was destroyed; then it yields the same objects if and only if no mention was missed the first time |
| `Runs.IdleConservation` | atomic_defi_design/Dex/Games/qwebchannel.js:141-173 | over every run, idle messages sent are one for init plus one for every property-update message none of whose entries throws |
| `Runs.FlowControl` | atomic_defi_design/Dex/Games/qwebchannel.js:141-173 | idle messages equal property-update messages plus one if and only if no such entry occurs in the run |
| `Runs.DestroyedMidway` | atomic_defi_design/Dex/Games/qwebchannel.js:217-227 | an update of a nested object that emits its destroyed signal before another throws |
| `Runs.MissingIdle` | atomic_defi_design/Dex/Games/qwebchannel.js:141-152 | a concrete run with one property-update message that is never answered by idle |
| `Runs.SentArgsAre` | atomic_defi_design/Dex/Games/qwebchannel.js:334-347 | every argument of a method call is sent in its place, a live object as its id and anything else as it is |
| `Runs.MethodOfIs` | atomic_defi_design/Dex/Games/qwebchannel.js:334 | a method whose name ends in a closing parenthesis is invoked by index, any other by name |
| `Requests.IncrementExact` | atomic_defi_design/Dex/Games/qwebchannel.js:114 | execId++ is exact below 2^53 |
| `Requests.IncrementSticks` | atomic_defi_design/Dex/Games/qwebchannel.js:114 | execId++ rounds back to 2^53 from there on |
| `Requests.IdsDistinctExactly` | atomic_defi_design/Dex/Games/qwebchannel.js:106-115 | the first k callback requests have pairwise distinct ids if and only if k <= 2^53 + 1 |
| `Requests.NeverWraps` | atomic_defi_design/Dex/Games/qwebchannel.js:106-109 | the wrap-around test is true after no number of requests |
| `Requests.IssueKeeps` | atomic_defi_design/Dex/Games/qwebchannel.js:99-117 | a new request enters the table under its id, which keeps every pending one correlated if and only if the id is not still in the table |
| `Requests.EarlyIdsAreFree` | atomic_defi_design/Dex/Games/qwebchannel.js:106-115 | which always holds for the first 2^53 + 1 requests |
| `Requests.AnswerKeeps` | atomic_defi_design/Dex/Games/qwebchannel.js:131-137 | an answer finds exactly the callback of the request it answers and runs it, its entry staying until that returns |
| `Requests.ReturnKeeps` | atomic_defi_design/Dex/Games/qwebchannel.js:137-138 | the delete after a callback removes that request's entry and no other, whatever the callback issued or received |
| `Requests.ThrowKeeps` | atomic_defi_design/Dex/Games/qwebchannel.js:137-138 | a callback that throws skips the delete: its own entry stays behind, and every other as it was |
| `Requests.CorrelationExactly` | atomic_defi_design/Dex/Games/qwebchannel.js:97-139 | in every re-entrant run, correlation holds throughout if and only if every callback request finds its id free: pending entries are exactly the unfinished requests, and each callback runs at most once and only on its own response |
| `Requests.RequestCorrelation` | atomic_defi_design/Dex/Games/qwebchannel.js:97-139 | which is so in every run of up to 2^53 + 1 callback requests |
| `Requests.PendingAtRest` | atomic_defi_design/Dex/Games/qwebchannel.js:131-139 | with no callback running, what is pending is exactly what was never answered and what was answered to a callback that threw |
| `Requests.CorrelationLimit` | atomic_defi_design/Dex/Games/qwebchannel.js:97-139 | with k requests in flight every answer reaches its own callback if and only if k <= 2^53 + 1 |
| `Channel.QWebChannel.constructor` | atomic_defi_design/Dex/Games/qwebchannel.js:97-119 | a new channel has sent the init request, with its callback pending, and knows no object |
| `Channel.QWebChannel.AllocateRequest` | atomic_defi_design/Dex/Games/qwebchannel.js:106-115 | exec with a callback takes the current id, stores the callback under it and counts on; the wrap-around branch is unreachable |
| `Channel.QWebChannel.CallMethod` | atomic_defi_design/Dex/Games/qwebchannel.js:328-368 | a method call is a request with a callback, sent under the id it was stored under, by index if the method is fully specified and else by name, with its arguments, registered objects as their ids |
| `Channel.QWebChannel.BeginResponse` | atomic_defi_design/Dex/Games/qwebchannel.js:131-137 | handling a response looks up the callback under its id, if there is one |
| `Channel.QWebChannel.EndResponse` | atomic_defi_design/Dex/Games/qwebchannel.js:138 | once the callback has returned, the entry of that response is deleted |
| `Channel.QWebChannel.AbandonResponse` | atomic_defi_design/Dex/Games/qwebchannel.js:137 | a callback that throws leaves handleResponse before the delete |
| `Channel.QWebChannel.NewQObject` | atomic_defi_design/Dex/Games/qwebchannel.js:176-189 | the constructor registers the object and fills its cache with the wire values |
| `Channel.QWebChannel.UnwrapQObject` | atomic_defi_design/Dex/Games/qwebchannel.js:191-231 | the recursive in-place method computes the specified store and value |
| `Channel.QWebChannel.MapUnwrap` | atomic_defi_design/Dex/Games/qwebchannel.js:193-206 | lists and plain objects are unwrapped member by member, in order |
| `Channel.QWebChannel.UnwrapObjectProperties` | atomic_defi_design/Dex/Games/qwebchannel.js:233-238 | the loop over the live cache unwraps what was announced, although nested objects are registered meanwhile |
| `Channel.QWebChannel.HandleInit` | atomic_defi_design/Dex/Games/qwebchannel.js:159-173 | registers all roots, then unwraps each, then sends idle: from a new channel, the start of every run |
| `Channel.QWebChannel.InvokeAll` | atomic_defi_design/Dex/Games/qwebchannel.js:298-306 | runs the callbacks in order, the client's own one included |
| `Channel.QWebChannel.UpdateProperties` | atomic_defi_design/Dex/Games/qwebchannel.js:308-321 | all cache writes come before all callbacks |
| `Channel.QWebChannel.HandlePropertyUpdate` | atomic_defi_design/Dex/Games/qwebchannel.js:141-152 | handles the entries in order, skips unknown objects, and sends idle unless an entry threw: the step of a run for that message |
| `Channel.QWebChannel.HandleSignal` | atomic_defi_design/Dex/Games/qwebchannel.js:121-129 | unwraps the arguments, then invokes the callbacks of the registered object: the step of a run for that signal |
| `Channel.QWebChannel.HandleResult` | atomic_defi_design/Dex/Games/qwebchannel.js:368-373 | the result of a method call is unwrapped before it is passed on, an undefined one is none: the step of a run for it |
| `Channel.QWebChannel.ConnectSignal` | atomic_defi_design/Dex/Games/qwebchannel.js:245-270 | adds the callback and sends at most one message: the step of a run for that call |
| `Channel.QWebChannel.DisconnectSignal` | atomic_defi_design/Dex/Games/qwebchannel.js:271-291 | removes the first occurrence of the callback and sends at most one message: the step of a run for that call |
| `Channel.QWebChannel.SetPropertyValue` | atomic_defi_design/Dex/Games/qwebchannel.js:412-427 | ignores undefined, else writes the cache and sends the value, a registered object as its id: the step of a run for that assignment |
| `AddressBook.CardsAt` | src/core/atomicdex/managers/addressbook.manager.cpp:65-75 | a contact is found exactly when the abstract book has a card of that name |
| `AddressBook.AddressesAt` | src/core/atomicdex/managers/addressbook.manager.cpp:92-112 | with distinct types, looking up type then key reads the abstract address map |
| `AddressBook.KindPresent` | src/core/atomicdex/managers/addressbook.manager.cpp:266-274 | a wallet info of a type exists exactly when some address is stored under that type |
| `AddressBook.SetAddressOk` | src/core/atomicdex/managers/addressbook.manager.cpp:171-182 | setting an address adds or replaces that one (type, key) pair and keeps types distinct and wallet infos non-empty |
| `AddressBook.SetAddressInPlace` | src/core/atomicdex/managers/addressbook.manager.cpp:171-182 | the address goes into the first wallet info of its type, in place, or into a new one behind the others |
| `AddressBook.WithoutAddresses` | src/core/atomicdex/managers/addressbook.manager.cpp:184-192 | filtering out a type removes its pairs and no others |
| `AddressBook.RemoveKeyOk` | src/core/atomicdex/managers/addressbook.manager.cpp:194-203 | removing a key removes that one pair; no empty wallet info is left behind |
| `AddressBook.RemoveInPlace` | src/core/atomicdex/managers/addressbook.manager.cpp:184-203 | removing a type takes out its one wallet info and keeps the order of the others; removing a key changes that one alone, or takes it out with its last key |
| `AddressBook.EraseFirstDrops` | src/core/atomicdex/managers/addressbook.manager.cpp:224-236 | erasing the first occurrence of a category erases it |
| `AddressBook.CategoriesInPlace` | src/core/atomicdex/managers/addressbook.manager.cpp:212-236 | a new category comes last; erasing takes out the first occurrence and moves nothing else |
| `AddressBook.ApplyInPlace` | src/core/atomicdex/managers/addressbook.manager.cpp:133-244 | an added contact comes last; any other modifier changes the first contact of the name, in place, or throws without one, a removal excepted; no other contact changes or moves |
| `AddressBook.Refines` | src/core/atomicdex/managers/addressbook.manager.cpp:133-244 | every modifier, given a fresh name unless it throws, throws exactly when the abstract book says so, changes only the named card, exactly as its name says, and keeps the book well-formed |
| `AddressBook.FreshnessIsExact` | src/core/atomicdex/managers/addressbook.manager.cpp:133-169 | an addition or rename keeps contact names distinct if and only if the new name is not in use |
| `AddressBook.RunRefines` | src/core/atomicdex/managers/addressbook.manager.cpp:133-244 | over any run of modifiers the book stays well-formed throughout if and only if every addition and rename that does not throw uses a fresh name, and then the run is the same run on the abstract book |
| `Manager.RemoveIf` | src/core/atomicdex/managers/addressbook.manager.cpp:188-191 | the in-place algorithm moves exactly the other types' elements, in order, to the front |
| `Manager.RemoveIfAndErase` | src/core/atomicdex/managers/addressbook.manager.cpp:184-192 | erasing one element at the returned position gives the filtered list if and only if the type occurred once |
| `Manager.AddressBookManager.GetContact` | src/core/atomicdex/managers/addressbook.manager.cpp:65-75 | finds the first contact of the name or throws |
| `Manager.AddressBookManager.HasContact` | src/core/atomicdex/managers/addressbook.manager.cpp:254-264 | true exactly for the names of the abstract book |
| `Manager.AddressBookManager.HasWalletInfo` | src/core/atomicdex/managers/addressbook.manager.cpp:266-274 | agrees with the abstract address map, and throws for an unknown contact |
| `Manager.AddressBookManager.HasWalletInfoKey` | src/core/atomicdex/managers/addressbook.manager.cpp:276-285 | true exactly when the pair has an address; throws for an unknown contact |
| `Manager.AddressBookManager.GetWalletInfoAddress` | src/core/atomicdex/managers/addressbook.manager.cpp:109-112 | returns the address of the pair, or throws when contact, type or key is missing |
| `Manager.AddressBookManager.HasCategory` | src/core/atomicdex/managers/addressbook.manager.cpp:287-299 | true exactly for the card's categories; throws for an unknown contact |
| `Manager.AddressBookManager.AddContact` | src/core/atomicdex/managers/addressbook.manager.cpp:133-145 | appends an empty contact, whose card is new in the book |
| `Manager.AddressBookManager.RemoveContact` | src/core/atomicdex/managers/addressbook.manager.cpp:147-157 | erases the first contact of the name, if any; its card is gone and no other has changed |
| `Manager.AddressBookManager.ChangeContactName` | src/core/atomicdex/managers/addressbook.manager.cpp:164-169 | renames the contact in place or throws; its card goes over to the new name |
| `Manager.AddressBookManager.SetContactWalletInfo` | src/core/atomicdex/managers/addressbook.manager.cpp:171-182 | pushes a wallet info for a new type, then writes the address; the card has that one address set; throws for an unknown contact |
| `Manager.AddressBookManager.RemoveContactWalletKind` | src/core/atomicdex/managers/addressbook.manager.cpp:184-192 | removes exactly the type's wallet info; the card loses exactly the addresses of the type |
| `Manager.AddressBookManager.RemoveContactWalletInfo` | src/core/atomicdex/managers/addressbook.manager.cpp:194-203 | erases the key; its call of the overload without a key always finds the type; the card loses that one address; throws exactly for an unknown contact or a type without addresses |
| `Manager.AddressBookManager.AddContactCategory` | src/core/atomicdex/managers/addressbook.manager.cpp:212-222 | adds the category and says so exactly if it was not there |
| `Manager.AddressBookManager.RemoveContactCategory` | src/core/atomicdex/managers/addressbook.manager.cpp:224-236 | erases the category's first occurrence, if any; the card no longer has it |
| `Entries.ListedAscends` | src/core/atomicdex/models/qt.addressbook.contact.model.cpp:256-266 | the entries of a wallet info come in ascending key order, each with its stored value |
| `Entries.LessExactly` | src/core/atomicdex/models/qt.addressbook.contact.model.cpp:259 | that order: at the first difference the lesser character, or the end, comes first |
| `Entries.ScanIs` | src/core/atomicdex/models/qt.addressbook.contact.model.cpp:270-285 | a type is looked for once per mention as a coin or coin type, except the coin All and the type UTXO |
| `Entries.ScanInOrder` | src/core/atomicdex/models/qt.addressbook.contact.model.cpp:270-285 | all coins in their order, then all coin types in theirs, the placeholders passed over wherever they stand |
| `Entries.ScanNoRepeats` | src/core/atomicdex/models/qt.addressbook.contact.model.cpp:270-285 | duplicate-free, disjoint lists make populate look for every type at most once |
| `Entries.PopulatedInOrder` | src/core/atomicdex/models/qt.addressbook.contact.model.cpp:250-285 | entries come back ordered by the place of their type in the scan, then by key |
| `Entries.ReadBackInOrder` | src/core/atomicdex/models/qt.addressbook.contact.model.cpp:250-285 | for duplicate-free, disjoint lists: entries of coins other than All come back before those of coin types other than UTXO, those of two coins by place in the coin list, of two coin types by place in theirs, of one type by key |
| `Entries.AheadIsStrict` | src/core/atomicdex/models/qt.addressbook.contact.model.cpp:250-285 | no two entries can come before one another in that order, so it is the only one |
| `Entries.SavedWalletsOk` | src/core/atomicdex/models/qt.addressbook.contact.model.cpp:217-225 | saving leaves well-formed wallet infos whose abstract map is that of the entries, the last value per pair winning |
| `Entries.LastCounts` | src/core/atomicdex/models/qt.addressbook.contact.model.cpp:222-225 | of several entries for one type and key the last is what is saved |
| `Entries.SavedInOrder` | src/core/atomicdex/models/qt.addressbook.contact.model.cpp:222-225 | wallet infos are saved in the order in which their types first occur among the entries |
| `Entries.PopulatedCount` | src/core/atomicdex/models/qt.addressbook.contact.model.cpp:250-285 | reload brings each stored address back as often as its type is scanned |
| `Entries.SaveThenReload` | src/core/atomicdex/models/qt.addressbook.contact.model.cpp:198-228 | with distinct pairs, save then reload gives a permutation of the entries if and only if every entry's type is scanned exactly once |
| `Entries.CategoriesComeBack` | src/core/atomicdex/models/qt.addressbook.contact.model.cpp:213-215 | saved categories have no repeats and the same members, and are unchanged if and only if there were no repeats |
| `Entries.CategoriesInOrder` | src/core/atomicdex/models/qt.addressbook.contact.model.cpp:213-215 | categories are saved in the order in which they first occur |
| `Entries.ReloadThenSave` | src/core/atomicdex/models/qt.addressbook.contact.model.cpp:198-228 | reload then save changes the abstract map by exactly the removal of addresses whose type is not scanned |
| `Entries.ReloadSaveReload` | src/core/atomicdex/models/qt.addressbook.contact.model.cpp:198-228 | reload, save, reload reads the entry sequence of the first reload, in the same order |
| `ContactModel.AddIsExact` | src/core/atomicdex/models/qt.addressbook.contact.model.cpp:164-183 | an entry is refused exactly when its type-key concatenation is present, and otherwise appended |
| `ContactModel.RemovesFirst` | src/core/atomicdex/models/qt.addressbook.contact.model.cpp:185-196 | the first row with the concatenation goes, the others stay in their order; without one nothing happens |
| `ContactModel.PairsDistinctIsWeaker` | src/core/atomicdex/models/qt.addressbook.contact.model.cpp:164-183 | a concrete entry is refused although its (type, key) pair is new |
| `ContactModel.RemovePresent` | src/core/atomicdex/models/qt.addressbook.contact.model.cpp:185-196 | with distinct concatenations, removing a present pair removes that row and no other |
| `ContactModel.RemoveAbsent` | src/core/atomicdex/models/qt.addressbook.contact.model.cpp:185-196 | removing an absent pair touches nothing if and only if no row has its concatenation |
| `Entries.SaveReloadExactly` | src/core/atomicdex/models/qt.addressbook.contact.model.cpp:198-228 | for any entries, save then reload gives a permutation of them if and only if each is the last of its pair and there as often as its type is scanned |
| `ContactModel.EditsKeepConcatExactly` | src/core/atomicdex/models/qt.addressbook.contact.model.cpp:164-285 | every run of add, remove, save and reload from an empty contact keeps the concatenations distinct if and only if no type is scanned twice |
| `ContactModel.RepeatedScan` | src/core/atomicdex/models/qt.addressbook.contact.model.cpp:270-285 | with a type scanned twice, adding one entry, saving and reloading repeats it |
| `ContactModel.EditsKeepConcat` | src/core/atomicdex/models/qt.addressbook.contact.model.cpp:164-228 | where no type is scanned twice, such runs keep the concatenations distinct in the book as well |
| `ContactModel.SaveIsLossless` | src/core/atomicdex/models/qt.addressbook.contact.model.cpp:198-228 | at any point of any such run, save then reload gives the same entries if and only if each is the last of its pair and there as often as its type is scanned; where no type is scanned twice, if and only if their types are all scanned |
| `ContactModel.ContactModel.constructor` | src/core/atomicdex/models/qt.addressbook.contact.model.cpp:33-43 | a new model holds what populate reads from the book, and nothing if that throws |
| `ContactModel.ContactModel.SetName` | src/core/atomicdex/models/qt.addressbook.contact.model.cpp:101-116 | renames the contact in the book unless the model was nameless, and itself unless that threw |
| `ContactModel.ContactModel.AddCategory` | src/core/atomicdex/models/qt.addressbook.contact.model.cpp:145-155 | adds a category and says so exactly if it is new |
| `ContactModel.ContactModel.AddAddressEntry` | src/core/atomicdex/models/qt.addressbook.contact.model.cpp:164-183 | appends the entry and says so exactly if no row has its concatenation |
| `ContactModel.ContactModel.RemoveAddressEntry` | src/core/atomicdex/models/qt.addressbook.contact.model.cpp:185-196 | removes the first row with that concatenation |
| `ContactModel.ContactModel.Save` | src/core/atomicdex/models/qt.addressbook.contact.model.cpp:208-228 | replaces the categories and wallet infos of the one contact, every other contact untouched; throws without changing the book if there is none |
| `ContactModel.ContactModel.Reload` | src/core/atomicdex/models/qt.addressbook.contact.model.cpp:198-206 | discards pending changes and reads the contact again; left cleared if there is none |
| `ContactModel.ContactModel.Populate` | src/core/atomicdex/models/qt.addressbook.contact.model.cpp:234-288 | reads the categories, then the addresses type by type in scan order and key by key |
| `Coherence.SignalKeepsCoherence` | src/core/atomicdex/models/modelhelper.cpp:48-112 | every truthful signal but columnsRemoved keeps a map equal to the model at its cell for every current role, role names that come with the first rows included; columnsRemoved does too if connected as intended |
| `Coherence.SignalDoes` | src/core/atomicdex/models/modelhelper.cpp:48-112 | signal by signal: which ones bring a map up to date, from any state, which rewrite the roles mentioned, and which leave it untouched, columnsRemoved among them |
| `Coherence.ColumnRemovalExactly` | src/core/atomicdex/models/modelhelper.cpp:53-54 | as connected in the source, removing columns leaves a map coherent if and only if its column lies before them or its cell reads as the one replacing it |
| `Coherence.StaleAfterColumnRemoval` | src/core/atomicdex/models/modelhelper.cpp:54 | a concrete table where the map goes stale, and the reset that mends it |
| `Coherence.FullUpdateRestores` | src/core/atomicdex/models/modelhelper.cpp:63-69 | a signal that makes a map rewrite every role brings it up to date from any state |
| `Coherence.SignalExactly` | src/core/atomicdex/models/modelhelper.cpp:48-112 | a signal keeps a coherent map so if and only if it is connected as intended, or is not columnsRemoved, or the removal leaves the map's cell as it was |
| `Coherence.RunCoherentExactly` | src/core/atomicdex/models/modelhelper.cpp:41-112 | from construction on, over every run, the map agrees with the model at every point if and only if the signals are connected as intended or every column removal leaves its cell as it was |
| `ModelHelperClasses.PropertyMap.constructor` | src/core/atomicdex/models/modelhelper.cpp:41-56 | a new map agrees with the model |
| `ModelHelperClasses.PropertyMap.Update` | src/core/atomicdex/models/modelhelper.cpp:63-69 | writes every current role and no other key |
| `ModelHelperClasses.PropertyMap.OnSignal` | src/core/atomicdex/models/modelhelper.cpp:71-112 | the connected slots rewrite exactly the roles they should, wiring of line 54 included |
| `ModelHelperClasses.PropertyMap.StoreUpdated` | src/core/atomicdex/models/modelhelper.cpp:30-39 | a write from QML keeps what the model then says for a role name, the input for any other key |
| `ModelHelperClasses.ModelHelper.MapperForRow` | src/core/atomicdex/models/modelhelper.cpp:222-235 | finds the live map of that row, if there is one |
| `ModelHelperClasses.ModelHelper.Map` | src/core/atomicdex/models/modelhelper.cpp:169-185 | maps of column 0 are shared per row, others made anew; new maps agree with the model |
| `ModelHelperClasses.ModelHelper.RemoveMapper` | src/core/atomicdex/models/modelhelper.cpp:237-248 | a destroyed map leaves the list, the rest stays listed |
| `ModelHelperClasses.ModelHelper.Emit` | src/core/atomicdex/models/modelhelper.cpp:48-56 | one signal reaches every live map; of maps that all agreed with the model, exactly those still do whose cell a column removal left as it was, all of them for any other signal; after a reset or layout change all agree from any state |
| `Lifecycle.Conservation` | src/app/app.cpp:228-250 | over every interleaving: tickers pushed are those consumed, in order, followed by those queued; unfreed blocks are exactly the queued ones; what ticks took is initialised once, in push order |
| `Lifecycle.NextConserves` | src/app/app.cpp:396-408 | every single step, of the GUI thread or of a handler, keeps that balance |
| `Lifecycle.SessionEnd` | src/app/app.cpp:449-505 | at rest with a refresh due: handlers disconnected, flags down, status not complete, and each queue empty if and only if nothing was pushed since disconnect found it empty |
| `Lifecycle.PushInWindow` | src/app/app.cpp:458-495 | in every run, a handler past its test when disconnect unsubscribes still queues its ticker for the next session |
| `Lifecycle.OrderlySessions` | src/app/app.cpp:449-520 | if no push falls between a drain and the end of the session, both queues are empty until handlers are connected again |
| `Lifecycle.SessionIsolation` | src/app/app.cpp:231-246 | after a session that ended with an empty queue, in any later run ticks take nothing pushed before, and whatever is initialised is made, in order, of what they take of the tickers pushed since |
| `Lifecycle.IsolationExactly` | src/app/app.cpp:215-260 | nothing pushed before the end of a session is taken by a tick in any later run, if and only if the queue is empty at its end, as it is if no push falls into the gap |
| `Lifecycle.LeftoverIsTaken` | src/app/app.cpp:215-246 | a ticker left in the queue is taken by the next tick |
| `Lifecycle.TickerLeaks` | src/app/app.cpp:458-495 | a concrete run from the start in which a ticker pushed during one session's disconnect is initialised in the next session |
| `Lifecycle.TakenLater` | src/app/app.cpp:231-246 | what is taken after a given moment is, in order, what was pushed from the first unconsumed ticker on |
| `Lifecycle.FlagsAreHistory` | src/app/app.cpp:236-243 | in every run each flag is true exactly when ticks have taken that coin since the flags were last lowered, which was when a disconnect last found the queue empty, but for the steps of one that has just done so |
| `Lifecycle.StatusSafety` | src/app/app.cpp:251-260 | while the status is complete, both flags are set and ticks have taken both coins since the flags were last lowered, if and only if no disconnect is between lowering the first flag and resetting the status |
| `Lifecycle.StaleStatus` | src/app/app.cpp:497-503 | a concrete run from the start to a moment when the status is complete and both flags are down |
| `Lifecycle.NextKeepsFlags` | src/app/app.cpp:236-243 | each coin flag is true exactly when the tickers consumed since the flags were last lowered include that coin, taken by a tick |
| `Lifecycle.NextKeepsControl` | src/app/app.cpp:215-226 | handlers are connected exactly when no refresh is due, but between the two writes |
| `Lifecycle.ExitFreezes` | src/app/app.cpp:270-293 | once exit is flagged no tick handles an action and the queues grow only by pushes of handlers already past their test, one for one |
| `Lifecycle.NextExits` | src/app/app.cpp:661-667 | the exit handler flags the exit and changes nothing else, and no other step does |
| `Lifecycle.ExitingExactly` | src/app/app.cpp:661-667 | after any run the exit is flagged if and only if it was before or the exit handler ran |
| `Lifecycle.ExitIsForGood` | src/app/app.cpp:270-293 | in every run, from the exit handler on: the exit stays flagged, the actions handled are those handled when it ran, and pushes only use up what handlers past their test then had left |
| `Lifecycle.StatusChanges` | src/app/app.cpp:251-260 | the status changes at a login, when mm2 is ready, when a tick that initialised something finds both flags set, and at the end of a disconnect, to what each of them sets |
| `App.FinishIsRun` | src/app/app.cpp:214-294 | letting the GUI thread finish is a run of the transition system |
| `App.HandlerIsRun` | src/app/app.cpp:396-408 | a handler run in one piece is a run of the transition system |
| `App.PushAllIs` | src/app/app.cpp:396-408 | it queues its tickers in order behind what was there and does nothing else |
| `App.ActionHandlerIsRun` | src/app/app.cpp:619-626 | the handler for orders and swaps, run in one piece, is a run that queues its one action behind the others and does nothing else |
| `App.TickEffect` | src/app/app.cpp:214-294 | an uninterrupted tick connects handlers if a refresh is due, and handles every action unless exiting; with mm2 running it initialises the whole queue as one batch if non-empty and completes the status exactly if so and both coins are then enabled, without mm2 it leaves queue, flags and status alone |
| `App.DisconnectEffect` | src/app/app.cpp:448-505 | an uninterrupted disconnect empties both queues, initialises and handles nothing, and resets every flag and the status |
| `App.Application.Tick` | src/app/app.cpp:214-294 | tick with its two loops is the uninterrupted run from its first step |
| `App.Application.Disconnect` | src/app/app.cpp:448-505 | disconnect with its two loops is the uninterrupted run from its first step |
| `App.Application.OnCoinFullyInitialized` | src/app/app.cpp:396-408 | pushes every ticker in order unless exiting |
| `App.Application.OnOrdersAndSwapsFinished` | src/app/app.cpp:619-626 | pushes the action last, the reset one after a manual reset, unless exiting |
| `App.Application.ExitHandler` | src/app/app.cpp:661-667 | flags the exit and changes nothing else |
| `App.Application.Login` | src/core/atomicdex/managers/qt.wallet.manager.cpp:329-334 | sets the status to initializing |
| `App.Application.OnMm2Initialized` | src/app/app.cpp:432-436 | sets the status to enabling coins |
| `CoinLists.EnableCoins` | src/app/app.cpp:70-102 | refused exactly over the limit; else the requested coins in order, then, once each, exactly the coins named as fee coin by a requested coin other than themselves that are neither enabled nor active; the limit itself holds exactly if these fit too |
| `CoinLists.BuildDisableList` | src/app/app.cpp:117-132 | the reversed eligible coins with a parent-fee flag, then the other eligible coins in order |
| `CoinLists.DisableCoins` | src/app/app.cpp:111-153 | the displayed ticker moves to the primary coin exactly if it is disabled and the primary is fully enabled, and is then outside the list |
| `CoinLists.DisabledAreEligible` | src/app/app.cpp:117-132 | each coin is listed as often as asked for, default coins and coins with a swap in progress never |
| `CoinLists.FlaggedFirst` | src/app/app.cpp:123-130 | the coins that carry the parent-fee flag, whether they pay in another coin or in themselves, come before those that do not |
| `CoinLists.DisableNext` | src/app/app.cpp:117-132 | each further coin goes to the front if flagged and else to the end, if it may be disabled at all |
| `CoinLists.OrderExactly` | src/app/app.cpp:117-132 | of two coins asked for once and disabled: a flagged one precedes an unflagged one, two flagged ones come in reverse order, two unflagged ones in order |
| `CoinLists.TokenBeforeParent` | src/app/app.cpp:117-132 | of a token and the other coin it pays its fees in, each asked for once and eligible, the token comes first if and only if its parent does not carry the flag or was asked for before the token |
| `CoinLists.ParentBeforeToken` | src/core/atomicdex/config/coins.cfg.cpp:175-269 | a concrete request whose parent, flagged and paying in itself, comes before its token |

## Left out

- Registry.Unwrap: the host's trees are taken as decoded: a wrapper is a value with the marker and an id, plain objects list their members in enumeration order, and every nested object announces a `destroyed` signal, without which the source throws half-way.
- Channel.QWebChannel: QObject instances are records in one field of the channel, their position being their identity; aliasing is equality of positions.
- Channel.QWebChannel.AllocateRequest: messages that already carry an id, responses without one, and callbacks that are not functions only produce a console message in the source and are excluded by type; the transport check of the constructor likewise.
- Delivery.InvokeExact: user callbacks are recorded, not executed, while a signal is delivered; callbacks that connect, disconnect or assign properties during delivery are not modelled.
- QObjects.SubscriptionProtocol: assumes, as do the lemmas of `Subscriptions`, that an index is not shared between pure, notify and destroyed signals.
- Subscriptions.HostAgreesThroughout: the host is taken to drop the subscriptions of an object it destroys.
- Channel.QWebChannel.CallMethod: the promise and what becomes of the response beyond its unwrapping are not modelled.
- Names inherited from `Object.prototype` as object ids, transport, JSON text, console output, promises, enums and method binding of the web channel.
- Lifecycle.SessionEnd: the event sinks are disconnected in one step, not one by one.
- Manager.AddressBookManager.RemoveContactWalletKind: requires the type to be present, because erasing at the end iterator is undefined in the source (the overload with a key always meets this), and the named contact to have distinct wallet types, as every run of modifiers leaves it; `Manager.RemoveIfAndErase` says what a repeated type leaves.
- Manager.AddressBookManager.RemoveContactWalletInfo: requires the named contact, if there is one, to have distinct wallet types, as every run of modifiers leaves it; with a type occurring twice the source leaves moved-from elements of unspecified content behind.
- Reading and writing the address book file, and wallet infos without an addresses member in a hand-edited file.
- Coherence.SignalKeepsCoherence: assumes that role names change only with a signal that concerns every cell, that different roles have different, non-empty names; one flat table, without parents, persistent indexes, moves or negative indexes.
- ModelHelperClasses.PropertyMap.StoreUpdated: the model's own setData is not modelled; its effect is a `DataChanged` change before the value is stored.
- CoinLists.EnableCoins: coin information, swaps in progress and the fee-parent table are input functions; calls into mm2, portfolio, trading and wallet pages are not modelled, nor is the wrap-around of the size sum.
- Frames processed inside tick and the exit handler, services, settings, login beyond its status change, and everything else of the application object.
