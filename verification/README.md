# LumenMQ in Dafny

A model of the hard core of the LumenMQ MQTT broker, with proofs about it: the subscription index, the wire codec, the QoS
handshakes, the session lifecycle with its offline queues, the CIDR filter, and three small exact models (MQTT-SN topic
identifiers, offline-store keys, the token bucket). `dafny verify dfyconfig.toml` checks everything.

Code that only computes is modelled by functions; code that changes things in place is modelled by classes and loops, and
each such method is proved against a function on values. The main theorems are about those functions, over every input or
over every run:

- **Subscriptions.** After any history the wildcard tree, the shared groups and the reverse index hold one flat relation
  (`HistoryRefines`), also for every interleaving of the lock blocks of different clients' operations
  (`QuiescentAgreement`); when operations of one client overlap, the last blocks decide (`LastBlocksDecide`,
  `AgreeIffLastBlocksAgree`). `Matches` returns
  exactly the best matches of that relation. Pruning keeps the tree free of dead branches and thereby determined by the
  relation (`TreeDeterminedByRelation`); round-robin is fair over runs of the whole index (`RunFair`).
- **Codec.** Round trips in both directions for all 14 packet types (`PacketsArrive`, `AcceptedRoundTrip`, `DecoderImage`)
  and independence of how a stream is cut into reads (`ChunkingIndependent`). What is written is the layout of the
  standard (`FrameWritten`, `ConnectWrites`); every CONNECT in that layout is read, with any list of properties
  (`ConnectReads`); strings are exactly the encodings of Unicode scalar values (`ValidIffForm`).
- **QoS.** On the wire no PUBREL separates two transmissions of one message, so a receiver accepts it once
  (`PublishesNotSeparated`, `AcceptedOnce`); every PUBLISH carries its message (`PublishCarriesMessage`); the clock and the
  retry count decide each resend (`TickDecides`); the inflight table conserves messages (`Conserved`); inbound QoS 2 is exactly
  once for messages begun and completed on the same connection (`ExactlyOnce`).
- **Sessions.** A drain of the offline queue is the longest suffix that should survive (`DrainIsLongestSuffix`), and that
  is what a registration hands back (`HandsBackLongestSuffix`), in order and without repetition (`HandedInOrder`);
  superseded connections are harmless and wills fire at most once (`SupersededForever`, `WillFiresOnce`,
  `NoWillAfterClearOrTakeover`); the online counter (`OnlineCount`). Told by the calls alone: a session that was left is
  swept away exactly when its expiry interval has passed (`ExpiryExact`), and a message for it comes back exactly if it is
  young enough and not crowded out (`AwayDeliveryComesBack`).
- **CIDR, topic identifiers, store keys, token bucket.** `IpFilter.Build` with `IpFilter.Filter.Contains`, `AssignExact`,
  `OfflineStore.Store.Drain`, `GrantExact`, `RateBound` and `DisconnectBound`.

Time is a number that callers pass in. Randomness, channels and the guards in front of a PUBLISH are inputs too. Names of
clients and topics are strings in the subscription and session models, byte strings in the codec and in the store.

## Where a property fails, and exactly when it holds

- The codec says that it knows the value types of all MQTT 5.0 properties. Its table differs from section 2.2.2.2 of the
  standard: a property written as the standard says is passed over exactly if its identifier is one of the 18 on which both
  agree, or it is an empty Reason String (`StandardValueSkips`). A CONNECT with a Topic Alias Maximum of ten is refused
  (`TopicAliasMaximumRefused`). By the broker's own types every list of properties is read (`ConnectSectionReads`).
- `unsubscribe_all` does not prune. The tree it leaves has no dead branch exactly when every node has another subscriber
  below it (`RemoveEverywhereKeepsLive`); `DeadBranchExample` is a history after which it has one.
- `unsubscribe_all` runs beside the client's own operations: from the end of a removed connection, the sweep for expired
  sessions, the admin interface and the MQTT-SN gateway. Overlaps of one client's operations can leave a filter held and
  not listed (`HeldNotListed`), or listed and not held (`ListedNotHeld`), for every filter. What is held is decided by the
  last block on tree or groups that touches the filter, what is listed by the last block on the reverse index that does;
  the structures agree exactly when these say the same (`AgreeIffLastBlocksAgree`), as they do when operations of one
  client do not overlap (`NoOverlapAgrees`).
- Subscribing afresh and unsubscribing gives back the identical tree exactly when there was no dead branch on the path
  (`SubscribeThenUnsubscribe`).
- The round-robin counter wraps at 2^64. Over all windows it is fair exactly for group sizes that divide 2^64
  (`FairEverywhere`, `UnfairAtWrap`), and for every other size there is a run that is not (`UnfairRun`).
- The inbound QoS 2 record lives as long as the connection. A message can be routed once more for each reconnection made
  while its PUBREC is awaited, and no more (`RoutedPerReconnect`, `RoutedAgain`).
- `cleanup_expired` checks and removes under separate locks. The online counter is exact when each call is atomic
  (`OnlineCountExact`); in general it is too high by the number of connected sessions that a late removal took away
  (`OnlineCount`), and `SweepRace` is a run where that happens.
- `assign_topic_id` falls back to identifier 1 when all are taken. The identifier it yields stands for the topic exactly
  when the topic was registered before or fewer than 65534 are (`AssignExact`).
  `FallbackReached` is a run of 65534 registrations after which it does not.
- A delivery looks at the session and enqueues later. The message reaches the client exactly when that session is still in
  place (`LatePutExact`); otherwise nobody ever gets it (`NowhereForever`).
- The end of a connection removes its session and then, in a second step, its client's subscriptions. The second step takes
  away what was subscribed since the first exactly when the client subscribed in between and nothing undid it
  (`CleanupLosesIff`); `CleanupRace` shows a client left connected without subscriptions.
- Store keys hold the client-id length modulo 65536. A drain returns exactly the client's queue when its scan meets the
  client's own messages only; `OwnOnlyExact` says exactly when: always for ids of at most 65535 bytes (`ShortIdsOwnOnly`),
  which is all that MQTT over TCP can carry. The MQTT-SN gateway can make longer ones out of ids that are not valid UTF-8,
  since it puts a three-byte character in place of what is invalid; every id's scan meets the keys of one that continues
  it by 65536 bytes (`LongIdsMeet`).
- A client's token bucket is dropped when it disconnects and when the rate is set, and is full when made again. In any
  window a client gets at most one full bucket more for each such event inside (`DisconnectBound`), and for every number of
  disconnections or resets there is a run that reaches this at one instant (`DisconnectBoundReached`). While the rate is 0
  nothing is limited (`NoLimitAtZero`).
- The offline queue makes room in a loop that comes to an end exactly when the capacity is not 0 (`RoomIffCapacity`).
- `allocate_pid` fails when all 65535 identifiers are in flight; the comments in the code say 65534. Every QoS 1 or 2
  message is written exactly when fewer than both the configured cap and 65535 are in flight (`DeliverExact`).

Behaviour that differs from what the MQTT standards ask for and is modelled as the code has it: `$` topics are matched by
wildcards (section 4.7.2 of MQTT 3.1.1), PUBREC moves a QoS 1 entry to the second stage, PUBACK and PUBCOMP remove any
entry, non-minimal length fields are accepted, and CONNECT properties may be read past their declared end.

## Model

| member | source | states |
|---|---|---|
| `Topics.JoinSplit` | src/broker/subscription.rs:80-123 | cutting a filter into levels loses nothing: joining the levels gives the text back |
| `Topics.SplitJoin` | src/broker/subscription.rs:80-123 | levels without separators are what their joined text is cut into |
| `Topics.ValidateFilter` | src/broker/subscription.rs:419-445 | accepts exactly the filters whose wildcards stand alone, `#` last; otherwise the fault is that of the first faulty level |
| `Topics.ParseSharedInverse` | src/broker/subscription.rs:296-303 | a filter parses as group and inner filter exactly when it is `$share/`, a group name without separator, and that inner filter |
| `Topics.TopicMatchesFilter` | src/broker/subscription.rs:447-479 | the two-pointer loop decides matching: every level up to the first `#` equal or `+`, and the lengths fit, on every topic and filter |
| `Topics.WalkAgrees` | src/broker/subscription.rs:305-325 | the level-by-level walk of the tree and the two-pointer matcher agree on every valid filter |
| `SubscriptionModel.AcceptedIff` | src/broker/subscription.rs:80-123 | a shared filter is taken if and only if the filter inside is valid, any other if and only if it is valid itself |
| `SubscriptionModel.InsertAt` | src/broker/subscription.rs:80-123 | subscribing changes the subscribers at that path and at no other |
| `SubscriptionModel.RemoveAt` | src/broker/subscription.rs:327-382 | removing with pruning takes this client off this path; every other subscriber stays where it was |
| `SubscriptionModel.AttachHeld` | src/broker/subscription.rs:80-123 | after a subscription each client holds each filter as before, but for the one subscribed |
| `SubscriptionModel.DetachHeld` | src/broker/subscription.rs:125-171 | after an unsubscription each client holds each filter as before, but for the one removed |
| `SubscriptionModel.AttachSound` | src/broker/subscription.rs:80-123 | subscribing keeps paths valid, groups non-empty and reverse lists without repetition |
| `SubscriptionModel.DetachSound` | src/broker/subscription.rs:125-171 | unsubscribing keeps the same, dropping groups that become empty |
| `SubscriptionModel.PutFound` | src/broker/subscription.rs:80-123 | a reverse list after an entry: the new QoS for its filter, the old one for every other |
| `SubscriptionModel.DropFound` | src/broker/subscription.rs:125-171 | a reverse list after a removal: nothing for its filter, the old QoS for every other |
| `SubscriptionPruning.InsertKeepsLive` | src/broker/subscription.rs:80-123 | subscribing leaves no node without a subscriber at or below it |
| `SubscriptionPruning.RemoveKeepsLive` | src/broker/subscription.rs:327-382 | removal with pruning leaves no such node either |
| `SubscriptionPruning.DeterminedBySubscribers` | src/broker/subscription.rs:397-402 | trees without dead branches that have the same subscribers at every path are identical |
| `SubscriptionPruning.SubscribeThenUnsubscribe` | src/broker/subscription.rs:327-382 | a fresh subscription and its removal give back the identical tree if and only if no branch along the path was dead |
| `SubscriptionPruning.RemoveEverywhereKeepsLive` | src/broker/subscription.rs:384-395 | forgetting a client everywhere leaves no dead branch if and only if every node has another subscriber at or below it |
| `SubscriptionRuns.StepKeepsInv` | src/broker/subscription.rs:80-213 | every lock block, of whatever client, keeps the three structures in agreement up to the block each client is in |
| `SubscriptionRuns.RunKeepsInv` | src/broker/subscription.rs:80-213 | so does every interleaving of lock blocks in which no two operations of one client overlap |
| `SubscriptionRuns.CountsAgree` | src/broker/subscription.rs:269-287 | when the structures agree, tree subscriptions plus group members equal the total length of the reverse lists |
| `SubscriptionRuns.QuiescentAgreement` | src/broker/subscription.rs:80-213 | after any interleaving of different clients' operations, once no operation is in progress, tree, groups and reverse lists hold the same reference relation and the counts agree |
| `SubscriptionOverlaps.LastBlocksDecide` | src/broker/subscription.rs:80-213 | in every interleaving, with any number of operations of one client in progress: what is held is what the last tree or group block that touches (client, filter) made of it, what is listed is what the last reverse-index block did |
| `SubscriptionOverlaps.LastWordIs` | src/broker/subscription.rs:80-213 | the last word is that of the block after which none touches; without any nothing is held |
| `SubscriptionOverlaps.AgreeIffLastBlocksAgree` | src/broker/subscription.rs:80-213 | so the structures agree if and only if those last blocks say the same for every client and filter; then the counts agree |
| `SubscriptionOverlaps.OverlapsKeepSound` | src/broker/subscription.rs:80-213 | no interleaving leaves an empty group, an invalid path or a filter listed twice |
| `SubscriptionOverlaps.NoOverlapAgrees` | src/broker/subscription.rs:80-213 | when no operation begins while another of its client is in progress, the structures agree whenever none is |
| `SubscriptionOverlaps.HeldNotListed` | src/broker/subscription.rs:173-213 | for every filter a finished run in which a subscription between two blocks of unsubscribe_all ends held and not listed |
| `SubscriptionOverlaps.ListedNotHeld` | src/broker/subscription.rs:173-213 | for every filter a finished run in which an unsubscribe_all between the two blocks of a subscription leaves it listed and not held |
| `SubscriptionHistory.ApplyRefines` | src/broker/subscription.rs:80-213 | each whole operation on the index does to the relation it holds what the operation means on the flat relation |
| `SubscriptionHistory.HistoryRefines` | src/broker/subscription.rs:80-213 | after every history of operations the index holds exactly the flat relation of that history |
| `SubscriptionHistory.WalkFindsMatches` | src/broker/subscription.rs:305-325 | what the walk of the tree reaches for a topic is exactly what the relation holds with a matching filter |
| `SubscriptionHistory.HistoryKeepsLive` | src/broker/subscription.rs:327-382 | without unsubscribe_all the tree never keeps a branch without subscribers, over every history |
| `SubscriptionHistory.TreeDeterminedByRelation` | src/broker/subscription.rs:397-402 | two such histories that end in the same relation end in the identical tree |
| `SubscriptionHistory.UnsubscribeAllLeavesDeadBranch` | src/broker/subscription.rs:384-395 | with unsubscribe_all a dead branch remains, for every filter subscribed alone |
| `SubscriptionHistory.DeadBranchExample` | src/broker/subscription.rs:384-395 | a concrete history after which a dead branch remains |
| `SharedSelection.LessMeans` | src/broker/subscription.rs:243-267 | the order of members: one name is before another if and only if, where they first differ, it ends or has the lower character |
| `SharedSelection.SortMembers` | src/broker/subscription.rs:243-267 | the members of a group, sorted, as the unique sorted enumeration of the set |
| `SharedSelection.RoundRobinFair` | src/broker/subscription.rs:243-267 | over any k consecutive matching publishes each of n members is chosen between floor(k/n) and ceil(k/n) times, as long as the counter does not wrap |
| `SharedRuns.PicksAreChoices` | src/broker/subscription.rs:243-267 | what a group chooses in a run of the index, with other publishes, groups and operations in between, is what it would choose by itself for that many publishes, while its members stay |
| `SharedRuns.RunFair` | src/broker/subscription.rs:243-267 | after any run, over any further actions that keep a group's n members, each is chosen between floor(k/n) and ceil(k/n) times for the k publishes it serves, as long as its counter does not wrap |
| `SharedRuns.UnfairRun` | src/broker/subscription.rs:243-267 | for every group, matching topic and size n that does not divide 2^64, a run of the index from the start after which a member is chosen twice within one round |
| `SharedSelection.UnfairAtWrap` | src/broker/subscription.rs:243-267 | when 2^64 is no multiple of n, a window at the wrap in which one member is chosen twice within one round |
| `SharedSelection.FairEverywhere` | src/broker/subscription.rs:243-267 | fairness over all windows, wraps included, holds if and only if n divides 2^64 |
| `TopicTree.Tree.ChildForLevel` | src/broker/subscription.rs:27-33 | the child for a level, created empty if missing; `+` and `#` have slots of their own |
| `TopicTree.Tree.Subscribe` | src/broker/subscription.rs:80-123 | the loop down the levels leaves the tree of the insertion function |
| `TopicTree.Tree.CollectMatches` | src/broker/subscription.rs:305-325 | collects exactly the subscriptions that the rest of the topic reaches from a node |
| `TopicTree.Tree.RemoveRecursive` | src/broker/subscription.rs:327-382 | removes the subscriber, prunes empty nodes on the way back, and tells whether it was there |
| `TopicTree.Tree.RemoveAll` | src/broker/subscription.rs:384-395 | forgets the client at a node and everywhere below, keeping every node |
| `TopicTree.Tree.CountSubscribers` | src/broker/subscription.rs:404-416 | the number of (path, client) pairs at a node and below |
| `SubscriptionTree.KeepBest` | src/broker/subscription.rs:216-237 | one entry per client with the highest QoS met |
| `SubscriptionTree.SubscriptionIndex.constructor` | src/broker/subscription.rs:76-78 | an empty index, which holds the empty relation |
| `SubscriptionTree.SubscriptionIndex.Subscribe` | src/broker/subscription.rs:80-123 | refuses exactly the invalid filters; otherwise the held relation gains or overwrites this (client, filter) |
| `SubscriptionTree.SubscriptionIndex.Unsubscribe` | src/broker/subscription.rs:125-171 | the held relation loses this (client, filter); the result tells whether it was held |
| `SubscriptionTree.SubscriptionIndex.UnsubscribeAll` | src/broker/subscription.rs:173-213 | the held relation loses everything of this client |
| `SubscriptionTree.SubscriptionIndex.Matches` | src/broker/subscription.rs:216-237 | exactly the clients that hold a matching normal filter, each once, with the highest QoS over those filters |
| `SubscriptionTree.SubscriptionIndex.MatchesShared` | src/broker/subscription.rs:243-267 | exactly one member for each group whose filter matches, chosen in turn; those counters and nothing else advance |
| `SubscriptionTree.SubscriptionIndex.SubscriberCount` | src/broker/subscription.rs:269-278 | tree count plus group members is the size of the relation and the total length of the reverse lists |
| `SubscriptionTree.SubscriptionIndex.SubscriptionsOf` | src/broker/subscription.rs:289-292 | lists each filter of the client once, with the QoS held |
| `Wire.ReadBackString` | src/codec/v3.rs:577-588 | a length-prefixed string is read back, whatever follows it |
| `Wire.ReadBackBinary` | src/codec/v3.rs:590-601 | so is a length-prefixed byte string |
| `Wire.ReadBackVbi` | src/codec/v3.rs:179-193 | a variable byte integer below 2^28 is read back |
| `Wire.PutVbiShortest` | src/codec/v3.rs:114-126 | no encoding that the reader accepts for a number is shorter than the one written |
| `Utf8.ValidIffForm` | src/codec/v3.rs:166-172 | a string is accepted if and only if it is the UTF-8 encoding of some sequence of Unicode scalar values |
| `CodecProperties.SkipsValue` | src/codec/v3.rs:245-263 | for each identifier, by the type of its value (byte, two or four bytes, variable byte integer, string or binary, string pair), exactly the value is passed over, whatever follows |
| `CodecProperties.SkipsNothingElse` | src/codec/v3.rs:260-262 | every other identifier, and no listed one, is an unknown property |
| `CodecProperties.ConnectSectionReads` | src/codec/v3.rs:209-231 | every list of properties with values of those types is read to its end and no further, and yields its last session expiry interval, or none |
| `CodecProperties.WillSectionSkips` | src/codec/v3.rs:378-384 | a will property section of any length and content is passed over; before MQTT 5.0 there is none |
| `CodecProperties.TruncatedRefused` | src/codec/v3.rs:209-226 | a section that announces more bytes than there are, and a session expiry cut short, are refused |
| `CodecProperties.StandardValueSkips` | src/codec/v3.rs:233-263 | a property as the MQTT 5.0 standard types it is passed over exactly if and only if its identifier is one of 18 listed ones, or it is an empty Reason String |
| `CodecProperties.TopicAliasMaximumRefused` | src/codec/v3.rs:247-261 | a CONNECT property section with a Topic Alias Maximum of ten is refused, whatever follows |
| `CodecConnect.ProtocolReads` | src/codec/v3.rs:338-349 | exactly the names MQTT and MQIsdp and the levels 3, 4 and 5 are accepted, in any combination; the name is looked at first |
| `CodecConnect.ConnectReads` | src/codec/v3.rs:338-418 | every CONNECT in the layout of the standard decodes to its fields, whatever readable property list, will properties and trailing bytes it has |
| `CodecConnect.ConnectWrites` | src/codec/v3.rs:603-661 | a CONNECT is written in that layout, with its session expiry as the one property and empty will properties |
| `CodecFormat.FrameWritten` | src/codec/v3.rs:65-86 | a packet is written if and only if its texts and its body fit, and then with the first byte, length and body that the standard lays out for its type |
| `CodecFormat.VariableByteWritten` | src/codec/v3.rs:114-126 | a length is written seven bits a byte, low bits first, the top bit set on every byte but the last, which is 0 only for 0 |
| `CodecFormat.FlagsDecide` | src/codec/v3.rs:265-327 | types 0 and 15 are refused; reserved flags are required of PUBREL, SUBSCRIBE, UNSUBSCRIBE, PINGREQ, PINGRESP and DISCONNECT, and ignored in the other types but PUBLISH |
| `CodecFormat.TooLongRefused` | src/codec/v3.rs:37-50 | a frame longer than the limit is refused with its length as soon as that is known, before its body has arrived |
| `CodecFormat.FiveByteLengthRefused` | src/codec/v3.rs:91-112 | a length field with a fifth byte is refused, with the number its first four bytes make |
| `CodecFormat.AcksRead` | src/codec/v3.rs:274-304 | the five acknowledgements are their identifier, which is not 0; trailing bytes are ignored |
| `CodecFormat.ConnackReads` | src/codec/v3.rs:420-441 | bit 0 of the CONNACK flags is session present, the others are ignored; a property section makes it one of MQTT 5.0 |
| `CodecFormat.PublishReads` | src/codec/v3.rs:443-468 | PUBLISH with any flags: QoS 3, DUP at QoS 0 and identifier 0 are refused in this order; otherwise all fields are read |
| `CodecFormat.SubscribeReads` | src/codec/v3.rs:470-486 | SUBSCRIBE with any options bytes: their two low bits are the QoS, 3 is refused, the rest is ignored |
| `CodecRoundTrip.ReadBackConnect` | src/codec/v3.rs:603-661 | a CONNECT body decodes to the same CONNECT: properties, will, user name and password included |
| `CodecRoundTrip.ReadBackPublish` | src/codec/v3.rs:663-679 | a PUBLISH body with its flag bits decodes to the same PUBLISH |
| `CodecRoundTrip.ReadBackSubscribe` | src/codec/v3.rs:681-688 | a SUBSCRIBE body decodes to the same identifier and topic list |
| `CodecRoundTrip.ReadBackUnsubscribe` | src/codec/v3.rs:690-697 | an UNSUBSCRIBE body decodes to the same identifier and filters |
| `CodecRoundTrip.BodyRoundTrip` | src/codec/v3.rs:517-575 | the body of every well-formed packet of the 14 types decodes, under its first byte, to that packet |
| `CodecRoundTrip.FrameRoundTrip` | src/codec/v3.rs:30-89 | an encoded packet decodes to itself and takes exactly its frame, whatever bytes follow |
| `CodecAccepted.BodyAccepted` | src/codec/v3.rs:265-305 | whatever body decodes yields a well-formed packet whose own body encodes and is no longer |
| `CodecAccepted.AcceptedRoundTrip` | src/codec/v3.rs:30-62 | everything the decoder accepts is well-formed, encodes into a frame no longer than the one it came from, and decodes again to the same packet |
| `CodecAccepted.DecoderImage` | src/codec/v3.rs:30-62 | the packets that can come out of the decoder are exactly the well-formed ones whose frame fits the size limit |
| `CodecStream.SettledDecoderIgnoresChunks` | src/codec/v3.rs:30-62 | any decoder whose answers do not change when bytes are appended gives the same packets, error and rest for every cutting |
| `CodecStream.DecodeStable` | src/codec/v3.rs:30-62 | a packet or an error, once returned, is returned whatever bytes are appended |
| `CodecStream.ChunkingIndependent` | src/codec/v3.rs:30-62 | every way of cutting a byte stream into reads yields the same packets, the same first error and the same rest |
| `CodecStream.EncodedDrains` | src/codec/v3.rs:65-89 | the concatenated frames of well-formed packets decode to that list with nothing left over |
| `CodecStream.PacketsArrive` | src/codec/v3.rs:30-89 | packets encoded one after another arrive as the same packets however the bytes are cut |
| `MqttCodec.Reader.ReadVbi` | src/codec/v3.rs:179-193 | the loop with a growing multiplier computes the recursive definition and its overflow error |
| `MqttCodec.Reader.ReadString` | src/codec/v3.rs:166-172 | reads a length-prefixed string, refusing malformed UTF-8, and moves past it |
| `MqttCodec.Reader.ReadBinary` | src/codec/v3.rs:174-177 | reads a length-prefixed byte string and moves past it |
| `MqttCodec.Reader.ParseConnectProperties` | src/codec/v3.rs:209-232 | the property loop is the recursive reader of which `ConnectSectionReads` is proved: session expiry kept, every other known property skipped, on until the declared end is reached or passed |
| `MqttCodec.Reader.SkipPropertyValue` | src/codec/v3.rs:234-263 | does what `SkipsValue` and `SkipsNothingElse` say of each identifier, and moves past the value |
| `MqttCodec.Reader.DecodeConnect` | src/codec/v3.rs:338-418 | the reader of which `ConnectReads` is proved, with its error order: protocol name and level, properties, client id, will, user name, password |
| `MqttCodec.Reader.DecodeConnack` | src/codec/v3.rs:420-441 | CONNACK of either protocol version |
| `MqttCodec.Reader.DecodePublish` | src/codec/v3.rs:443-468 | PUBLISH: identifier for QoS 1 and 2 only, the rest is payload |
| `MqttCodec.Reader.DecodeSubscribe` | src/codec/v3.rs:470-486 | the topic loop of SUBSCRIBE |
| `MqttCodec.Reader.DecodeUnsubscribe` | src/codec/v3.rs:500-513 | the filter loop of UNSUBSCRIBE |
| `MqttCodec.Reader.DecodeSuback` | src/codec/v3.rs:488-498 | SUBACK: identifier and return codes |
| `MqttCodec.DecodePacketBody` | src/codec/v3.rs:265-336 | type, required flags and body of a packet, with the error of the first check that fails |
| `MqttCodec.DecodeRemainingLength` | src/codec/v3.rs:91-112 | the remaining-length loop: value and header size, more bytes needed, or the error for a fifth byte |
| `MqttCodec.Buffer.PutRemainingLength` | src/codec/v3.rs:114-126 | the encoding loop appends the shortest encoding |
| `MqttCodec.Buffer.PutConnect` | src/codec/v3.rs:603-661 | appends the CONNECT body, or fails on a field that is too long |
| `MqttCodec.Buffer.PutPublish` | src/codec/v3.rs:663-679 | appends the PUBLISH body |
| `MqttCodec.Buffer.PutBody` | src/codec/v3.rs:517-575 | appends the body of any packet |
| `MqttCodec.FrameCodec.Decode` | src/codec/v3.rs:30-62 | one call on the receive buffer: None and length errors leave the bytes, otherwise exactly one frame is taken off |
| `MqttCodec.FrameCodec.Encode` | src/codec/v3.rs:68-86 | appends exactly the frame of the packet; after an error nothing was appended |
| `CyclicIds.SearchFindsFirst` | src/broker/mod.rs:1050-1066 | a bounded search from a cursor yields the first free identifier in cyclic order, or none when all tries were in use |
| `CyclicIds.SearchFailsIffFull` | src/broker/mod.rs:1050-1066 | with as many tries as identifiers, from a non-zero cursor, it fails if and only if every identifier is in use |
| `CyclicIds.SearchFromZero` | src/broker/mod.rs:1050-1066 | from cursor 0 one try is lost: it fails if and only if all but the last identifier are in use |
| `OutboundQos.StepKeepsInv` | src/broker/mod.rs:752-782 | delivery, PUBACK, PUBREC, PUBCOMP and retry ticks keep the invariant that ties table, serials and what was written together |
| `OutboundQos.RunKeepsInv` | src/broker/mod.rs:752-782 | so does every run, whatever the client sends |
| `OutboundRuns.PublishesNotSeparated` | src/broker/qos.rs:51-64 | between two transmissions of one message no PUBREL of its identifier is written; they are the same PUBLISH but for DUP, which the later one has |
| `OutboundRuns.RecordedMeans` | src/broker/qos.rs:149-169 | a receiver that dedups has an identifier on record exactly when some QoS 2 PUBLISH with it was not followed by PUBREL |
| `OutboundRuns.AcceptedOnce` | src/broker/mod.rs:752-782 | hence such a receiver accepts no message from two of its transmissions, over every run and whatever subsequence of the log reaches the wire |
| `OutboundRuns.WireRetransmits` | src/broker/mod.rs:536-567 | transmissions of one message that both reach the wire have no PUBREL of its identifier between them there, whatever is discarded |
| `OutboundRuns.Conserved` | src/broker/qos.rs:111-145 | over every run: entered = live + acknowledged + given up, the table keeps its cap, and no entry is resent more than max_retries times over both stages |
| `OutboundRuns.DeliverExact` | src/broker/mod.rs:681-709 | a QoS 1 or 2 message is entered under a free identifier, overwriting nothing, and its PUBLISH with its topic, payload, QoS and retain flag and DUP clear is written, if and only if fewer than both the cap and 65535 are in flight; otherwise table and wire are untouched |
| `OutboundRuns.TickExact` | src/broker/qos.rs:111-145 | a retry scan, in whatever order, bumps and resends exactly the due entries with retries left and drops exactly the due ones without |
| `OutboundRuns.TickOrderIrrelevant` | src/broker/qos.rs:111-145 | scans of the same entries in two orders leave the same table |
| `OutboundRecord.PublishCarriesMessage` | src/broker/mod.rs:681-709 | over every run: a PUBLISH written for the n-th message entered has its topic, payload, QoS and retain flag, and DUP exactly on a resend; every message entered was written; all packets written for it have one non-zero identifier |
| `OutboundRecord.LooseInOrder` | src/broker/mod.rs:687-690 | over every run the QoS 0 messages are written in order, each once, field by field, with DUP clear and no identifier |
| `OutboundRecord.TickDecides` | src/broker/qos.rs:111-145 | after every run a tick leaves an entry alone before its timeout, drops it after its last retry, and otherwise resends it once: its PUBLISH with DUP, or its PUBREL |
| `InflightTable.Connection.AllocatePid` | src/broker/mod.rs:1050-1066 | the loop yields the first free identifier in cyclic order; 0 if and only if all are in flight |
| `InflightTable.Connection.BuildOutboundPacket` | src/broker/mod.rs:681-709 | the packet has topic, payload, QoS and retain flag of the message, DUP clear and no identifier exactly at QoS 0; an identifier is free and not 0 and the message is in the table under it; none, from a non-zero cursor, if and only if the cap is reached or all identifiers are in flight |
| `InflightTable.Connection.OnPuback` | src/broker/mod.rs:752-757 | removes the entry, whatever its QoS and stage |
| `InflightTable.Connection.OnPubrec` | src/broker/mod.rs:758-771 | moves any entry to the second stage, sent now, its retries kept; PUBREL is answered even for an unknown identifier |
| `InflightTable.Connection.OnPubcomp` | src/broker/mod.rs:777-782 | removes the entry |
| `InflightTable.Connection.ScanEntries` | src/broker/qos.rs:117-138 | the first loop: entries bumped, packets and identifiers collected in scan order |
| `InflightTable.Connection.RetryExpired` | src/broker/qos.rs:111-145 | both loops together are the retry tick of the model, on exactly the entries that were in the table; the packets returned are those logged, each for the entry it names |
| `InboundQos2.StepKeepsInv` | src/broker/mod.rs:804-884 | each step of client, broker and channels keeps the order of packets in transit and what the broker's record means |
| `InboundQos2.RecordDecides` | src/broker/qos.rs:162-164 | the record holds the identifier of an arriving PUBLISH if and only if a copy of that same message arrived before on this connection |
| `InboundQos2.FirstVerdictDecides` | src/broker/mod.rs:837-851 | until a reconnection the verdict on a message stays that on its first copy: let through it is routed once, refused it is not routed by any retransmission |
| `InboundQos2.RoutedOncePerConnection` | src/broker/mod.rs:804-884 | with arbitrary retransmission and identifier reuse, a message is routed at most once per connection, and if and only if its first copy was let through |
| `InboundQos2.ExactlyOnce` | src/broker/mod.rs:772-776 | in every run, reconnections before and after included: a message begun and completed on the same connection has arrived there and is routed exactly once over all connections, or never if its first copy was refused |
| `InboundQos2.CompletedForever` | src/broker/mod.rs:772-776 | once its PUBCOMP was taken, a message is never routed again, whatever follows |
| `InboundQos2.RoutedPerReconnect` | src/broker/mod.rs:510-511 | a message is routed at most once more than there are reconnections made while the client waits for its PUBREC; no other reconnection counts |
| `InboundQos2.RoutedAgain` | src/broker/mod.rs:510-511 | for every n a run of a conforming client with n such reconnections in which a message is routed n + 1 times |
| `InboundTracker.Tracker.OnPublish` | src/broker/qos.rs:162-164 | records the identifier and tells whether it was recorded before |
| `InboundTracker.Tracker.OnPubrel` | src/broker/mod.rs:772-776 | forgets the identifier, as the protocol's broker step does; PUBCOMP is the answer in every case |
| `InboundTracker.Tracker.HandlePublish` | src/broker/mod.rs:804-884 | record, routing decision and acknowledgement are those of the protocol's broker step; only a QoS 2 PUBLISH without identifier is an error |
| `OfflineQueueModel.EvictIsSuffix` | src/broker/store_msg.rs:79-87 | eviction drops exactly the expired messages at the front; with times going forward, all expired ones |
| `OfflineQueueModel.RunLags` | src/broker/store_msg.rs:42-53 | after every run the queue is a suffix of what was enqueued, within capacity, that has lost nothing a later drain should return |
| `OfflineQueueModel.DrainIsLongestSuffix` | src/broker/store_msg.rs:55-60 | a drain hands back exactly the longest suffix of the messages enqueued since the last one that fits the capacity and has not expired |
| `OfflineQueueModel.RoomIffCapacity` | src/broker/store_msg.rs:47-50 | some number of removals brings the queue below its capacity, so that the loop ends, if and only if the capacity is not 0 |
| `OfflineQueue.Queue.EvictExpired` | src/broker/store_msg.rs:79-87 | the loop at the front computes eviction |
| `OfflineQueue.Queue.Enqueue` | src/broker/store_msg.rs:42-53 | evict, make room from the oldest, append |
| `OfflineQueue.Queue.Drain` | src/broker/store_msg.rs:55-60 | what eviction leaves, in order; the queue is empty after |
| `OfflineQueue.Queue.Len` | src/broker/store_msg.rs:63-68 | the length after eviction, which it performs |
| `SessionModel.ConnectedUpdate` | src/broker/session.rs:184-208 | replacing one entry moves the number of connected entries by that entry alone |
| `SessionRuns.OnlineCount` | src/broker/session.rs:332-371 | over every run, sweeps split at their locks included: online_count is the number of connected sessions plus the connected ones a late removal took away |
| `SessionRuns.OnlineCountExact` | src/broker/session.rs:403-405 | when every call is atomic, online_count is exactly the number of connected sessions, so it never goes below 0 |
| `SessionRuns.SweepRace` | src/broker/session.rs:351-366 | a run in which a client that comes back between check and removal loses its session uncounted |
| `SessionRuns.EpochsBounded` | src/broker/session.rs:149-151 | no session is ahead of the epoch counter |
| `SessionRuns.SupersededForever` | src/broker/session.rs:211-217 | an epoch that does not own its client never does again, whatever calls follow |
| `SessionRuns.RegisterSupersedes` | src/broker/session.rs:139-209 | a registration gets a higher epoch than all before it, owns its client, and takes it from any earlier epoch |
| `SessionRuns.StaleCallsHarmless` | src/broker/session.rs:295-328 | every call guarded by an epoch that is not the owner's leaves the session table as it is |
| `SessionRuns.WillFiresOnce` | src/broker/session.rs:383-392 | over every run no registration's will is fired twice |
| `SessionRuns.FiredIsRegistered` | src/broker/session.rs:383-392 | every will that is fired is the one its registration brought |
| `SessionRuns.NoWillLater` | src/broker/session.rs:383-401 | once a registration has no will in the table, no later call fires one for it |
| `SessionRuns.NoWillAfterClearOrTakeover` | src/broker/mod.rs:624-629 | after a processed DISCONNECT, and after a takeover, a registration's will never fires |
| `SessionRuns.HandedInOrder` | src/broker/session.rs:184-208 | over every run, late enqueues included, what a client's registrations were handed and what still waits is in order of enqueuing and without repetition |
| `SessionRuns.HandsBackLongestSuffix` | src/broker/session.rs:184-208 | with a forward clock a registration hands back exactly the longest suffix, of the messages put in the queue of the session it replaces, that fits the capacity and has not expired |
| `SessionRuns.LatePutExact` | src/broker/session.rs:247-283 | a delivery that enqueues after its look at the session leaves the message waiting if and only if that session is still in place; otherwise the table is untouched and the message is nowhere |
| `SessionRuns.NowhereForever` | src/broker/session.rs:247-283 | a message that missed its queue is handed to nobody, whatever calls follow |
| `SessionHistory.OnlineAt` | src/broker/session.rs:139-209 | over every run of atomic calls a registered session is there until it is ended: connected, with a queue and its expiry if persistent, with neither if clean |
| `SessionHistory.ExpiryExact` | src/broker/session.rs:332-371 | over every run of atomic calls a session left at t is gone if and only if it is persistent and a sweep came at a time now with expiry 0 or now >= t + expiry * 1000000000; without an expiry it is never swept away; until then it has all it had |
| `SessionHistory.BackOnline` | src/broker/session.rs:320-328 | a session marked online again is as it was when registered |
| `SessionHistory.DeliveryTold` | src/broker/session.rs:247-283 | what a delivery does by the life of the session: sent, queued, refused or dropped; a queued message is the last one waiting, any other leaves the table as it is |
| `SessionHistory.ComesBackIff` | src/broker/session.rs:184-208 | a queued message is handed back by the next registration if and only if fewer messages than the queue holds were queued after it and it is younger than the time to live |
| `SessionHistory.AwayDeliveryComesBack` | src/broker/session.rs:276-278 | a delivery to a persistent client marked offline since its registration is queued whatever its channel says, waits, and comes back under exactly that condition |
| `SessionHistory.WillFires` | src/broker/session.rs:383-392 | a connection that still owns its session when it breaks off fires the will it registered, if nothing took or cleared it |
| `CleanupRuns.CleanupLosesIff` | src/broker/mod.rs:982-986 | between session removal and unsubscribe_all: a subscription made since is there to be taken away if and only if the client's last touch on that filter in between was a subscription; after the second step the client holds nothing |
| `CleanupRuns.CleanupRace` | src/broker/mod.rs:982-986 | a client that comes back and subscribes in between owns a connected session and does not hold its filter |
| `CleanupRuns.CleanupSparesOthers` | src/broker/mod.rs:982-986 | no other client's subscription is touched |
| `SessionManager.StaleCleanup` | src/broker/mod.rs:978-1007 | the cleanup of a connection that lost its session changes nothing |
| `SessionManager.CleanupKeeps` | src/broker/mod.rs:978-1007 | the owner's session survives its disconnect if and only if it is persistent and its expiry is not 0; then it is offline since now, and no other session changes |
| `SessionManager.Manager.Register` | src/broker/session.rs:139-209 | new epoch, session present and backlog drained; the entry is connected, a persistent one has an empty queue and the expiry given, a clean one neither; the counter moves only if no connected session was replaced |
| `SessionManager.Manager.Look` | src/broker/session.rs:247-252 | what a delivery takes from the session under the lock: connection, and its queue, or nothing |
| `SessionManager.Manager.Send` | src/broker/session.rs:253-283 | the rest of a delivery in whatever state the table is by then: the outcome of the look, and the message in the queue taken hold of if that session is still in place |
| `SessionManager.Manager.Deliver` | src/broker/session.rs:247-283 | both with nothing in between: sent, queued, refused or dropped by connection, channel and queue; only the client's queue can change |
| `SessionManager.Manager.Remove` | src/broker/session.rs:285-292 | removes the session and counts it |
| `SessionManager.Manager.RemoveIfEpoch` | src/broker/session.rs:295-304 | removes it only for its owner |
| `SessionManager.Manager.MarkOffline` | src/broker/session.rs:308-316 | marks a connected session of this epoch offline since now, and counts it |
| `SessionManager.Manager.MarkOnline` | src/broker/session.rs:320-328 | the reverse |
| `SessionManager.Manager.CleanupExpired` | src/broker/session.rs:332-371 | the two loops remove and report, each once, exactly the offline sessions with an expiry interval that is 0 or has passed, in seconds of 1000000000 units, since their disconnection |
| `SessionManager.Manager.TakeWill` | src/broker/session.rs:383-392 | yields and clears the will of the owner's session |
| `SessionManager.Manager.ClearWill` | src/broker/session.rs:395-401 | clears it |
| `SessionManager.Manager.Cleanup` | src/broker/mod.rs:978-1007 | what a disconnect leaves of the session, and whether its subscriptions go: only when the owner's session was removed |
| `ConnectionEnd.Cleanup` | src/broker/mod.rs:978-1007 | sessions and subscriptions together: the client's subscriptions go exactly with its session, and a superseded connection changes neither |
| `SessionManager.Manager.OnAbnormalDisconnect` | src/broker/mod.rs:955-971 | fires the owner's will and cleans up; for a superseded connection nothing changes and nothing fires |
| `SessionManager.Manager.OnDisconnect` | src/broker/mod.rs:624-629 | discards the owner's will and cleans up; for a superseded connection nothing changes |
| `CidrModel.AndHighOnes` | src/security/ip_filter.rs:65-88 | conjunction with ones above k zeros clears the k low bits and nothing else |
| `CidrModel.MaskEqualIffTopBits` | src/security/ip_filter.rs:65-88 | two addresses are equal under the mask of a prefix if and only if their leading bits are; masking keeps those bits |
| `CidrModel.CoversIffLeads` | src/security/ip_filter.rs:133-180 | a rule covers an address of its version if and only if its network bits lead the address |
| `CidrModel.NormalisedCovers` | src/security/ip_filter.rs:24-61 | a rule normalised by its mask covers exactly what it covered before |
| `IpFilter.BitTrie.Insert` | src/security/ip_filter.rs:133-154 | the walk that makes missing nodes adds this prefix to the registered ones, and no other |
| `IpFilter.BitTrie.Contains` | src/security/ip_filter.rs:156-180 | the walk along the address finds it if and only if some registered prefix leads it |
| `IpFilter.PrefixesDecide` | src/security/ip_filter.rs:222-265 | some prefix of a rule list leads an address if and only if some rule of its version covers it |
| `IpFilter.Filter.AddRule` | src/security/ip_filter.rs:240-253 | one more rule, in the trie of its version |
| `IpFilter.Filter.Contains` | src/security/ip_filter.rs:259-265 | true if and only if some configured rule of the same version equals the address under its mask, for any list, order and repetition |
| `IpFilter.EntryCovers` | src/security/ip_filter.rs:24-61 | an entry is refused if and only if its prefix or address does not read or its prefix is too long; otherwise its rule covers an address if and only if the entry matches it |
| `IpFilter.Build` | src/security/ip_filter.rs:222-230 | refuses if and only if some entry's prefix or address does not read or its prefix exceeds 32 or 128, with the fault of the first such entry; otherwise the filter covers exactly what some entry matches: a bare address itself, an address with /n the addresses of its version that share its first n bits |
| `IpFilter.Check` | src/security/ip_filter.rs:295-303 | black list first, then the white list unless it is empty |
| `SnTopics.AssignExact` | src/net/mqtt_sn.rs:417-442 | keeps the maps inverse within 1..0xFFFE and what was registered; the identifier stands for the topic if and only if it was registered or fewer than 65534 are |
| `SnTopics.FallbackReached` | src/net/mqtt_sn.rs:417-442 | a run of 65534 registrations fills the registry; a new topic then gets identifier 1, which stands for another topic |
| `SnTopics.UnassignExact` | src/net/mqtt_sn.rs:636-640 | drops this topic from both maps and keeps them inverse |
| `SnTopics.RunInverse` | src/net/mqtt_sn.rs:417-442 | the maps are inverse to each other after every run of registrations and removals |
| `SnTopics.SnClient.AssignTopicId` | src/net/mqtt_sn.rs:417-442 | the loop yields the known identifier or the first free one, 1 when none is free |
| `SnTopics.SnClient.DropTopic` | src/net/mqtt_sn.rs:636-640 | removal from both maps |
| `StoreKeys.BigEndianOrder` | src/storage/mod.rs:117-131 | fixed-width big-endian numbers sort as byte strings as they do as numbers |
| `StoreKeys.KeyLayout` | src/storage/mod.rs:117-131 | a key is two bytes of client-id length, the id, and eight bytes of sequence number, high bytes first |
| `StoreKeys.KeyOrder` | src/storage/mod.rs:117-131 | keys of one client sort by sequence number and are distinct |
| `StoreKeys.PrefixMeets` | src/storage/mod.rs:172-178 | a client's scan prefix leads another client's key if and only if the lengths agree modulo 65536 and the id leads the other id and number |
| `StoreKeys.PrefixesApart` | src/storage/mod.rs:172-178 | for ids of at most 65535 bytes a scan meets the client's own keys only |
| `StoreKeys.LongIdsMeet` | src/storage/mod.rs:172-178 | every id's scan meets the keys of any id that continues it by 65536 bytes |
| `StoreKeys.KeyInjective` | src/storage/mod.rs:117-131 | keys determine client id and sequence number, however long the id |
| `OfflineStore.OwnOnlyExact` | src/storage/mod.rs:172-178 | a scan meets the client's own messages only if and only if no other stored client's id and number continue the client's id at the same length modulo 65536 |
| `OfflineStore.ShortIdsOwnOnly` | src/storage/mod.rs:172-178 | so it does when no id is longer than 65535 bytes |
| `OfflineStore.FoundIsQueue` | src/storage/mod.rs:138-163 | if a scan meets the client's own messages only, what it finds is the client's queue, in push order |
| `OfflineStore.OthersKeepQueues` | src/storage/mod.rs:138-163 | dropping one client's messages leaves every other client's queue as it was |
| `OfflineStore.Store.Push` | src/storage/mod.rs:117-131 | appends to this client's queue and to no other |
| `OfflineStore.Store.Drain` | src/storage/mod.rs:138-163 | returns and removes exactly the messages the scan meets, in key order; if these are the client's own, that is its queue in push order and every other queue stays |
| `RateLimiter.TokensBounded` | src/security/limiter.rs:35-65 | over every run tokens stay within 0 and the capacity |
| `RateLimiter.LevelExact` | src/security/limiter.rs:43-65 | the level is the least, over all windows that end now, of what capacity and rate still allow |
| `RateLimiter.GrantExact` | src/security/limiter.rs:43-65 | a request is granted if and only if no window that ends with it exceeds capacity plus rate times its length |
| `RateLimiter.RateBound` | src/security/limiter.rs:43-65 | what a bucket grants in any window is at most its capacity plus rate times the window's length |
| `RateLimiter.ClientsIndependent` | src/security/limiter.rs:151-168 | whatever other clients do, a client's bucket is that of its own requests since it last disconnected or the rate was set |
| `RateLimiter.AskExact` | src/security/limiter.rs:151-168 | a publish is let through if and only if the client's own windows since then allow it, with a capacity of twice the rate, at most 4294967295 |
| `LimiterRuns.DisconnectBound` | src/security/limiter.rs:151-183 | over every run of publishes, disconnections and rate changes, in any window in which the client's bucket is dropped d times, at most d + 1 full buckets plus rate times the window's length are let through, at the highest rate in force |
| `LimiterRuns.BucketsProduct` | src/security/limiter.rs:140-148 | those d + 1 full buckets are (d + 1) times the capacity |
| `LimiterRuns.DisconnectBoundReached` | src/security/limiter.rs:151-183 | for every d a run of publishes at one instant with d disconnections, and one with d resets, in which exactly (d + 1) times the capacity is let through |
| `LimiterRuns.NoLimitAtZero` | src/security/limiter.rs:151-155 | while the rate is 0, for every n, n publishes at one instant are all let through |
| `RateLimiter.TokenBucket.TryConsume` | src/security/limiter.rs:44-52 | refill by elapsed time up to the capacity, then take the tokens if there are enough |
| `RateLimiter.ClientLimiter.TryConsume` | src/security/limiter.rs:151-168 | the client's bucket, made full at first sight, decides; rate 0 lets everything through; other buckets stay |
| `RateLimiter.ClientLimiter.Remove` | src/security/limiter.rs:171-173 | drops the client's bucket |
| `RateLimiter.ClientLimiter.Reset` | src/security/limiter.rs:176-183 | a new rate and no buckets |

## Left out

- Network servers (TCP, TLS, WebSocket, UDP), timers, keep-alive and the select loop: input and output only.
- Admin HTTP API, dashboard, metrics and logging: formatting only.
- Router fan-out and retained messages: thin compositions over matching.
- Authentication, topic access lists, payload filters, configuration merging and validation: single-function decisions.
- Session snapshots and replay after a restart: equalities hold in narrow cases only.
- The rest of the MQTT-SN gateway: packet codec, sleep state, forwarding.
- Per-address connection counts in the limiter: easy members.
- Serialisation and input/output errors of the embedded database: the store is a byte-key map with ordered prefix scans.
- Text parsing of addresses and prefixes: an entry is given as the parsers read it.
- TopicTree.Tree.Subscribe: tree nodes are addressed by their path in one map, not owned by their parents; aliasing is not modelled.
- IpFilter.BitTrie.Insert: trie nodes are linked by positions in one list, not by owned pointers.
- SessionManager.Manager.Deliver: nothing in between; with others in between it is `Look` and `Send`, and `LatePut` in the runs. The queue is a value in the entry. Capacity at least 1, as for `OfflineQueue.Queue.Enqueue`.
- OfflineQueue.Queue.Enqueue: with capacity 0, which configuration validation admits, the loop that makes room does not end (`RoomIffCapacity`), so there is no result to state.
- SessionManager.Manager.Cleanup: on the sessions; the removal of the client's subscriptions that follows is in `ConnectionEnd`, and what can happen before it in `CleanupRuns`.
- OfflineStore.Store.Push: increasing sequence numbers below 2^64, as the database promises.
- RateLimiter.TokenBucket.TryConsume: real arithmetic, no rounding of floating-point numbers.
- InboundQos2.ExactlyOnce: for a client that follows the protocol, and channels that lose nothing within a connection.
- OutboundRuns.AcceptedOnce: at most once; that the first transmission is accepted depends on whether the client recorded an earlier message under the same identifier that was given up.
- OutboundQos.RunKeepsInv: what reaches the wire is the log or a subsequence of it; a failed write ends the connection, and a heartbeat tick during offline replay discards the packet just built, which only a later retry of its entry can send.
- SubscriptionRuns.QuiescentAgreement: at most one operation per client in progress; overlaps of one client's operations, which the code allows, are in `SubscriptionOverlaps`.
- SessionHistory.ExpiryExact: calls are atomic; what a sweep does whose check and removal are separated is in `OnlineCount` and `SweepRace`.
- SessionHistory.AwayDeliveryComesBack: atomic calls and a clock that goes forward; a delivery that enqueues late is in `LatePutExact`.
- LimiterRuns.DisconnectBound: each call is one step; a publish that has read the rate just before a reset can leave a bucket of the old rate after it.
