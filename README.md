# KopEventManager, modelled in Dafny

This project models `KopEventManager` of the Kafka-on-Pulsar protocol handler.
The manager watches two metadata-store paths and turns their change notifications into events.
It queues those events in a FIFO, and a single event thread processes them one at a time.

The model covers five pieces:

- **The event queue and the worker step** (`event_manager.dfy`).
  - `put` appends an event at the tail.
  - `clearAndPut` replaces whatever is queued with one event.
  - `close` enqueues the shutdown sentinel that way.
  - `doWork` takes the head and processes it, unless it is the sentinel.
  - The manager is the class `KopEventManager`. Its fields are the queue, the broker cache of the admin manager, the log of delete-topics passes, and a ghost log of the events whose `process()` ran.
- **Notification routing and the watched paths** (`event_manager.dfy`, `paths.dfy`). A notification for the brokers root leads to a brokers-change event. One for `/kop/delete_topics` leads to a delete-topics event. Any other path is ignored.
- **The endpoint parser `getNode`** (`endpoint.dfy`).
  - The pattern `^(.*)://\[?([0-9a-zA-Z\-%._:]*)\]?:(-?[0-9]+)` is specified declaratively: `IsMatch` says what a match is, and `Preferred` gives the order in which Java's backtracking engine tries the alternatives.
  - `find()` reports the first match, `IsFirstMatch`. A deterministic scanner, `RegexFind`, is proved to compute exactly that match.
  - `Integer.parseInt` and `Integer.toString` are modelled on decimal text. `ParseInt` is proved to undo `FormatInt` for every `int` (`ParseFormatRoundTrip`). The other direction does not hold: `ParseInt` also accepts non-canonical text such as `07`.
  - `getNode` then builds `Node(hash(host + portText), host, parseInt(portText))`. Its failures are `checkState`'s (no match) and `parseInt`'s (port out of range).
- **One delete-topics pass** (`delete_topics.dfy`).
  - `DeleteTopicsEvent.process` is a method with the source's loops, proved equal to the set-valued specification `Reconcile`.
  - Listed topics are mapped to full names. Every loaded group gives up its partitions of those topics, and the listed entries whose full name owned a collected partition are deleted.
- **The broker-cache refresh `getBrokers`** (`broker_refresh.dfy`).
  - A countdown starts at the number of listed brokers. Each broker's lookup callback is one atomic step of the class `PendingRefresh`.
  - The cache is published when the count reaches 0. That is exactly when every callback reached the decrement.
  - A failed lookup, an unreadable registration, or an endpoint `getNode` rejects skips the decrement. The cache is then never published. An empty broker list never publishes either.

The collaborators are inputs:

- The Murmur3 hash is a function `string -> int32`.
- `KopTopic`'s full-name normaliser is a function `string -> string`.
- Consumer groups are given by the partitions they own.
- Each broker lookup is given by its outcome (`BrokerLookup`).
- What the coordinator and the metadata store report while one event is processed is a `World` value.

## Model

| member | source | states |
|---|---|---|
| Endpoint.FirstMatchUnique | kafka-impl/src/main/java/io/streamnative/pulsar/handlers/kop/KopEventManager.java:208-209 | the match `find()` reports is unique: the backtracking order is strict |
| Endpoint.TryPort | kafka-impl/src/main/java/io/streamnative/pulsar/handlers/kop/KopEventManager.java:50 | for a fixed scheme and host end, `\]?:(-?[0-9]+)` succeeds exactly when some tail matches, and returns the tail the engine tries first (bracket taken, sign taken, longest digit run) |
| Endpoint.TryHost | kafka-impl/src/main/java/io/streamnative/pulsar/handlers/kop/KopEventManager.java:50 | trying host ends from the longest down returns the preferred match among all host ends up to the start |
| Endpoint.TryAt | kafka-impl/src/main/java/io/streamnative/pulsar/handlers/kop/KopEventManager.java:50 | with group 1 ending at `i`, the optional `[` is taken exactly when present; the result is the preferred match with that scheme end, and none exists when it returns nothing |
| Endpoint.FindFrom | kafka-impl/src/main/java/io/streamnative/pulsar/handlers/kop/KopEventManager.java:50 | trying scheme ends from the right returns the preferred match among all matches whose scheme ends at or before `i` |
| Endpoint.RegexFind | kafka-impl/src/main/java/io/streamnative/pulsar/handlers/kop/KopEventManager.java:208-209 | `find()` returns the first match by Java's backtracking order, and fails exactly when no prefix matches the anchored pattern |
| Endpoint.ParseInt | kafka-impl/src/main/java/io/streamnative/pulsar/handlers/kop/KopEventManager.java:217 | `Integer.parseInt`: empty text or a lone sign is rejected; plain digits are accepted exactly when their value fits in an `int`, and `-digits` exactly when its value is at least -2^31; an accepted value is the decimal value of the digits, negated after a '-' |
| Endpoint.ParseFormatRoundTrip | kafka-impl/src/main/java/io/streamnative/pulsar/handlers/kop/KopEventManager.java:217 | `Integer.parseInt(Integer.toString(n)) == n` for every `int` |
| Endpoint.GetNode | kafka-impl/src/main/java/io/streamnative/pulsar/handlers/kop/KopEventManager.java:206-218 | `getNode` throws from `checkState` exactly when no prefix of the string matches the pattern, and a node it returns has a host made only of the host class's characters |
| Endpoint.GetNodeSpec | kafka-impl/src/main/java/io/streamnative/pulsar/handlers/kop/KopEventManager.java:206-218 | `getNode` fails the `checkState` exactly when nothing matches; a port error means the first match's port text is out of range; a node carries group 2 as host, parses group 3 as port, and has id `hash(group2 + group3)` |
| Endpoint.PlainFirstMatch | kafka-impl/src/main/java/io/streamnative/pulsar/handlers/kop/KopEventManager.java:50 | in `scheme://host:port…` with trailing text free of ':' and not starting with a digit, the first match splits exactly there |
| Endpoint.BracketedFirstMatch | kafka-impl/src/main/java/io/streamnative/pulsar/handlers/kop/KopEventManager.java:50 | the same for `scheme://[host]:port…`: both brackets are consumed and are not part of the host |
| Endpoint.GetNodeRoundTrip | kafka-impl/src/main/java/io/streamnative/pulsar/handlers/kop/KopEventManager.java:206-218 | `getNode(scheme + "://" + host + ":" + port + rest)` returns `host`, `parseInt(port)` and id `hash(host + port)` when the scheme has no line terminator, the host is in the host class, the port is `-?digits` in range, and the rest has no ':' and no leading digit |
| Endpoint.GetNodeBracketedRoundTrip | kafka-impl/src/main/java/io/streamnative/pulsar/handlers/kop/KopEventManager.java:206-218 | the same for `scheme://[host]:port`, where the brackets are dropped from the host |
| Endpoint.GetNodeFormattedPort | kafka-impl/src/main/java/io/streamnative/pulsar/handlers/kop/KopEventManager.java:214-217 | an endpoint whose port was written by `Integer.toString(p)` gives back port `p` and id `hash(host + toString(p))` |
| Endpoint.GetNodeNeedsSchemeSeparator | kafka-impl/src/main/java/io/streamnative/pulsar/handlers/kop/KopEventManager.java:207-209 | a string without "://" fails the `checkState` |
| Endpoint.GetNodeNeedsPort | kafka-impl/src/main/java/io/streamnative/pulsar/handlers/kop/KopEventManager.java:207-209 | a string in which no ':' is followed by a digit, or by '-' and a digit, fails the `checkState` |
| Paths.DeleteTopicsPath | kafka-impl/src/main/java/io/streamnative/pulsar/handlers/kop/KopEventManager.java:314-320 | the delete-topics path is `/kop/delete_topics`, under the KoP root `/kop` |
| Paths.DeleteTopicPath | kafka-impl/src/main/java/io/streamnative/pulsar/handlers/kop/KopEventManager.java:265-268 | the entry deleted for a topic is the delete-topics path, '/', and the topic's original name |
| Paths.BrokersChangePath | kafka-impl/src/main/java/io/streamnative/pulsar/handlers/kop/KopEventManager.java:322-324 | the brokers root is `/loadbalance/brokers`, an absolute path outside the KoP root `/kop` |
| Paths.WatchedPathsDistinct | kafka-impl/src/main/java/io/streamnative/pulsar/handlers/kop/KopEventManager.java:318-324 | the brokers root and the delete-topics path differ |
| DeleteTopics.Reconcile | kafka-impl/src/main/java/io/streamnative/pulsar/handlers/kop/KopEventManager.java:228-277 | a pass does nothing exactly when the coordinator is inactive and stops exactly when the listing fails; otherwise every forgotten partition is owned by a loaded group, every deleted entry is a listed name, and nothing is deleted when nothing was collected |
| DeleteTopics.ProcessDeleteTopics | kafka-impl/src/main/java/io/streamnative/pulsar/handlers/kop/KopEventManager.java:228-277 | the pass with its three loops computes `Reconcile`: nothing when the coordinator is inactive, no effect when listing fails, otherwise the union over groups of their partitions of the listed full names, and the listed names whose full name owns one of them (no deletion when nothing was collected) |
| DeleteTopics.DeletedIffOwned | kafka-impl/src/main/java/io/streamnative/pulsar/handlers/kop/KopEventManager.java:253-263 | a store entry is deleted exactly when it is a listed name whose full name is the topic of a partition some loaded group owns; topics no group owns are never deleted |
| DeleteTopics.ForgottenIffListed | kafka-impl/src/main/java/io/streamnative/pulsar/handlers/kop/KopEventManager.java:236-251 | the partitions handed to `handleDeletedPartitions` are exactly the owned partitions whose topic is the full name of a listed topic |
| DeleteTopics.EffectsNeedCollectedPartitions | kafka-impl/src/main/java/io/streamnative/pulsar/handlers/kop/KopEventManager.java:229-276 | an inactive coordinator or a failed listing deletes nothing, and so does a pass that collected no partition |
| DeleteTopics.SecondPassIsQuiet | kafka-impl/src/main/java/io/streamnative/pulsar/handlers/kop/KopEventManager.java:254-255 | once the coordinator has forgotten a pass's partitions, a later pass over the same or fewer listed topics collects and deletes nothing |
| BrokerRefresh.AllDecrementIff | kafka-impl/src/main/java/io/streamnative/pulsar/handlers/kop/KopEventManager.java:188 | the countdown reaches 0 exactly when every callback reached the decrement |
| BrokerRefresh.CollectedExactly | kafka-impl/src/main/java/io/streamnative/pulsar/handlers/kop/KopEventManager.java:173-176 | the collected set is the union of what each callback added |
| BrokerRefresh.CollectedIsParsedEndpoints | kafka-impl/src/main/java/io/streamnative/pulsar/handlers/kop/KopEventManager.java:167-187 | a node is collected exactly when some lookup found a "kafka" endpoint that parses to it |
| BrokerRefresh.NoPublishAfterFailure | kafka-impl/src/main/java/io/streamnative/pulsar/handlers/kop/KopEventManager.java:162-165 | one callback that returns or throws before the decrement means the cache is never published |
| BrokerRefresh.BadEndpointBlocksPublish | kafka-impl/src/main/java/io/streamnative/pulsar/handlers/kop/KopEventManager.java:174-175 | an advertised endpoint that `getNode` rejects stops the publication |
| BrokerRefresh.OrderIrrelevant | kafka-impl/src/main/java/io/streamnative/pulsar/handlers/kop/KopEventManager.java:159-196 | whatever order the callbacks fire in, the same refresh publishes the same set |
| BrokerRefresh.PendingRefresh.constructor | kafka-impl/src/main/java/io/streamnative/pulsar/handlers/kop/KopEventManager.java:156-157 | the countdown starts at the number of brokers, with an empty node set and nothing published |
| BrokerRefresh.PendingRefresh.Complete | kafka-impl/src/main/java/io/streamnative/pulsar/handlers/kop/KopEventManager.java:161-194 | one callback decrements unless it failed, found an unreadable registration or a rejected endpoint; it adds the parsed node of a "kafka" endpoint, and publishes exactly when its decrement brings the count to 0 |
| BrokerRefresh.RefreshBrokers | kafka-impl/src/main/java/io/streamnative/pulsar/handlers/kop/KopEventManager.java:155-198 | one `getBrokers` publishes at most once, does so exactly when there was a broker and every callback decremented, and publishes the collected nodes |
| EventManager.Route | kafka-impl/src/main/java/io/streamnative/pulsar/handlers/kop/KopEventManager.java:147-153 | the brokers root leads only to a brokers-change event, the delete-topics path only to a delete-topics event, any other path to nothing, and no notification to the sentinel |
| EventManager.KopEventManager.constructor | kafka-impl/src/main/java/io/streamnative/pulsar/handlers/kop/KopEventManager.java:65-73 | a new manager has an empty queue and has processed nothing |
| EventManager.KopEventManager.Put | kafka-impl/src/main/java/io/streamnative/pulsar/handlers/kop/KopEventManager.java:93-103 | the event joins the tail; the queued events keep their order and nothing else changes |
| EventManager.KopEventManager.ClearAndPut | kafka-impl/src/main/java/io/streamnative/pulsar/handlers/kop/KopEventManager.java:105-113 | afterwards the queue is exactly the one event, whatever it held |
| EventManager.KopEventManager.Close | kafka-impl/src/main/java/io/streamnative/pulsar/handlers/kop/KopEventManager.java:80-90 | afterwards the queue holds only the shutdown sentinel |
| EventManager.KopEventManager.HandleChildChangePathNotification | kafka-impl/src/main/java/io/streamnative/pulsar/handlers/kop/KopEventManager.java:147-153 | a watched path enqueues its event at the tail; any other path leaves the queue alone |
| EventManager.KopEventManager.GetBrokers | kafka-impl/src/main/java/io/streamnative/pulsar/handlers/kop/KopEventManager.java:155-198 | the broker cache becomes the collected nodes when the refresh publishes, and is left as it was otherwise |
| EventManager.KopEventManager.Start | kafka-impl/src/main/java/io/streamnative/pulsar/handlers/kop/KopEventManager.java:138-145 | start-up fills the broker cache from the listed brokers as `getBrokers` does |
| EventManager.KopEventManager.DoWork | kafka-impl/src/main/java/io/streamnative/pulsar/handlers/kop/KopEventManager.java:122-134 | the step removes exactly the head; a sentinel head is consumed without processing, and any other head is processed once, as a delete-topics pass or a broker refresh |

## Left out

- Threads and locks are not modelled. This covers `ShutdownableThread`, `thread.start`/`initiateShutdown`/`awaitShutdown`, `putLock`, and the `InterruptedException` handlers that restore the interrupt flag. Every call and every callback is one atomic step.
- The queue is `static` in the source and so shared by all managers. Here each manager owns its queue.
- EventManager.KopEventManager.DoWork: `take()` blocks on an empty queue. The model returns `None` for that step and changes nothing.
- EventManager.KopEventManager.HandleChildChangePathNotification: `DeletionTopicsHandler` and `BrokersChangeHandler` are not part of this model. Their `handleChildChange` is taken to enqueue the matching event.
- EventManager.KopEventManager.Start: starting the event thread is left out. So is the listing that installs the watch on the delete-topics path. A bootstrap listing whose `join()` throws is not modelled.
- `BrokersChangeEvent.process` is folded into `DoWork`. A failed broker listing (`World.brokerListing == None`) is logged and returns. Otherwise the refresh's callbacks fire within the same step.
- The Gson parsing of a registration is abstracted into the lookup outcome (`BrokerLookup`). This covers malformed JSON, a missing `protocols` object (a NullPointerException), and a `kafka` member that `getAsString` rejects.
- `Murmur3_32Hash` is the parameter `hash`. Likewise `KopTopic`'s full name is `fullName`, and `GroupMetadata.collectPartitionsWithTopics` is read off the group's owned partitions. Exceptions `KopTopic` may throw are not modelled.
- The metadata store's `delete` calls are not modelled. The pass records the names whose entries it deletes. `handleDeletedPartitions` is recorded as the set of forgotten partitions, and its effect on the groups is assumed in `SecondPassIsQuiet` (`ForgetPartitions`).
- `LoadManager.LOADBALANCE_BROKERS_ROOT` is a constant of Pulsar and is not part of this model. It is taken as `/loadbalance/brokers`.
- Endpoint.ParseInt: only ASCII digits are read. Java's `parseInt` also accepts other Unicode decimal digits, but the pattern's port group admits only ASCII digits, so `getNode` never passes it any.
- Strings are sequences of Unicode scalar values, not UTF-16 units. The pattern's classes are ASCII, and `.` excludes the same line terminators either way.
- Logging is not modelled, including the log-only set difference of the delete-topics pass.
- The refresh's callbacks are not uniform:
  - A lookup error, an unreadable registration, or an endpoint `getNode` rejects returns or throws inside the callback before the decrement. That refresh then never publishes the cache.
  - A broker with no data or no `kafka` entry still counts down.
