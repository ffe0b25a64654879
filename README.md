# Ray pub/sub bookkeeping, LightGBM trainer checkpoint contract, autoscaler SDK checks

This project models three parts of Ray.

**The publisher side of Ray's pub/sub layer** (`src/ray/pubsub/publisher.h`).
- A `Publisher` keeps one `SubscriptionIndex` per channel.
  - An index is two-way. One side maps keys to subscribers, and has a separate entity for subscribers to every key. The other side is a reverse index from subscriber to keys.
  - Each entity is an `EntityState`: a subscriber set plus a byte-capped record of in-flight messages.
- The publisher gives every subscriber a `SubscriberState`: a FIFO mailbox that is drained in batches over one cached long-polling request.
- The publisher stamps each message with the next sequence id and tallies messages and bytes per channel.
- It removes subscribers on request, and also when `CheckDeadSubscribers` finds they have been silent for two timeouts.

Every class is an imperative Dafny class.
- Its fields are the source's containers, as `map`, `set` and `seq`.
- Every method is proved against a value view in a pure module:
  - `IndexModel` for an index;
  - `SubscriberStates` for a subscriber.
- The lemmas about those views state the promises made in the header's comments:
  - idempotent `AddEntry`;
  - "returns whether the subscriber existed";
  - the reverse index stays consistent;
  - no leaks after removal;
  - FIFO batches;
  - acknowledgement by sequence id;
  - the two-timeout rule.

**The checkpoint and trainer contract pinned down by `python/ray/train/tests/test_lightgbm_trainer.py`.**
- Which boosting rounds get a checkpoint, given rounds, frequency and an at-end flag.
- Which worker rank reports it.
- That the checkpoint paths come out sorted.
- That `num_boost_round` is an absolute target when resuming.
- Which constructor arguments are refused.

These are modelled as pure functions, with one lemma per parametrised test case.

**`request_resources` and `get_docker_host_mount_location` of `python/ray/autoscaler/sdk/sdk.py`.**
- `request_resources` is modelled as a `Result`-like function over a small datatype of Python values, with its error messages and their fixed order.
- `get_docker_host_mount_location` is a string builder.

Files:
- `options.dfy`: `Option`.
- `pubsub_types.dfy`: ids, messages, long-poll request and reply.
- `entity_state.dfy`: `EntityState` and its eviction arithmetic.
- `index_model.dfy`: the value model of an index.
- `subscription_index.dfy`: the `SubscriptionIndex` class.
- `subscriber_state.dfy`: the subscriber's value model and the `SubscriberState` class.
- `publisher.dfy`: the `Publisher` class.
- `lightgbm_trainer.dfy`: the trainer contract.
- `autoscaler_sdk.dfy`: the SDK checks.

**`publisher.cc` is not part of this model.** Only the header's declarations, fields and comments fix the behaviour, so where the header leaves a detail open the model makes this choice:
- `AddEntry` reports whether the pair was new, and both sides of the index agree on it.
- `EraseSubscriber` removes the all-keys subscription and every keyed subscription of that subscriber. Emptied key entities are dropped.
- The mailbox is not popped when a reply is sent. It is popped when a later poll acknowledges the messages. This follows the sequence-id comment at `publisher.h:473-477`.
  - A poll is an acknowledgement only when it names this publisher's id. Otherwise the acknowledged id is taken as 0.
- A batch is the oldest `publish_batch_size` messages of the mailbox. The `int64_t` size is compared as a `size_t` count. So 0 gives empty replies, and a negative size (the test-only `Publisher()` uses -1) sets no limit.
- `EntityState::Publish` refuses a message above the per-message cap. Otherwise it evicts the oldest in-flight messages while the total would overflow a positive `max_buffered_bytes`, then records the message. A cap of -1 disables the byte cap.
- `SubscriptionIndex::Publish` returns its recipients. The `Publisher` queues the message on every recipient's `SubscriberState`: first the all-keys subscribers, then those of the key.
- A subscriber is dead when it has no cached request and was inactive for the timeout. A live but inactive subscriber gets an empty reply, so it dies only after a second timeout.

`RegisterSubscription`, `UnregisterSubscription` and the `Unregister*`/`CheckDeadSubscribers` methods of `Publisher` may change only the entities' `subscribers` field, not `inFlight`. So every in-flight record survives those calls unchanged, and because each surviving key keeps its entity object, it also keeps its record.

## Model

| member | source | states |
|---|---|---|
| EntityStates.DropCountFits | src/ray/pubsub/publisher.h:87-90 | after evicting, the incoming message fits under a positive buffer cap unless every older message was evicted; a non-positive cap (-1) evicts nothing |
| EntityStates.DropCountMinimal | src/ray/pubsub/publisher.h:87-90 | eviction stops as early as possible: keeping any evicted message would overflow the cap |
| EntityStates.EvictAndAppendWithinCaps | src/ray/pubsub/publisher.h:81-90 | evicting and appending keeps every in-flight size within the per-message cap and the total within the buffer cap (or a single message) |
| EntityStates.EntityState.constructor | src/ray/pubsub/publisher.h:51-54 | starts with no subscribers and nothing in flight; the `int64_t` per-message limit is stored as `size_t`, the buffer limit as given |
| EntityStates.EntityState.NumBufferedBytes | src/ray/pubsub/publisher.h:67 | the number of bytes still in flight is the sum of the recorded message sizes |
| EntityStates.EntityState.AddSubscriber | src/ray/pubsub/publisher.h:60-61 | adds the subscriber; returns true iff it was not yet a subscriber |
| EntityStates.EntityState.RemoveSubscriber | src/ray/pubsub/publisher.h:62 | removes the subscriber; returns true iff it was one |
| EntityStates.EntityState.Publish | src/ray/pubsub/publisher.h:56-58 | returns whether the entity has subscribers; an oversized message is dropped; otherwise the in-flight record evicts the oldest messages and then holds the message, with sizes and total kept in step and the caps preserved |
| IndexModel.EmptyIndexConsistent | src/ray/pubsub/publisher.h:143-152 | a new index satisfies the reverse-index invariant and has no leaks |
| IndexModel.AddEntryConsistent | src/ray/pubsub/publisher.h:146-152 | `AddEntry` preserves the reverse-index invariant (s under key k iff k among s's keys) |
| IndexModel.AddEntryResult | src/ray/pubsub/publisher.h:108-111 | `AddEntry` returns true iff the pair is new (for the empty key, iff s was not an all-keys subscriber); both sides agree on it |
| IndexModel.AddEntryIdempotent | src/ray/pubsub/publisher.h:108-110 | adding the same entry again changes nothing and returns false; a false result means nothing changed |
| IndexModel.AddEntryQueries | src/ray/pubsub/publisher.h:121-129 | after `AddEntry` the subscriber is present; `HasKeyId` gains exactly the explicit key and nothing for an all-keys entry |
| IndexModel.EraseEntryConsistent | src/ray/pubsub/publisher.h:117-119 | `EraseEntry` preserves the reverse-index invariant |
| IndexModel.EraseEntryResult | src/ray/pubsub/publisher.h:117-119 | `EraseEntry` returns true iff the pair existed, and it is gone afterwards |
| IndexModel.EraseUndoesAdd | src/ray/pubsub/publisher.h:108-119 | erasing a pair that was just added restores the index and returns true |
| IndexModel.EraseSubscriberConsistent | src/ray/pubsub/publisher.h:113-115 | `EraseSubscriber` preserves the reverse-index invariant |
| IndexModel.EraseSubscriberResult | src/ray/pubsub/publisher.h:113-115 | `EraseSubscriber` returns true iff the subscriber existed before; afterwards `HasSubscriber` is false for it; every other subscriber's all-keys entry, keys and key listings are unchanged |
| IndexModel.ReverseIndexCovers | src/ray/pubsub/publisher.h:149-152 | the reverse side mentions exactly the subscribers listed under some key; `HasSubscriber` means being mentioned |
| IndexModel.SubscriberIdsByKeyIdMembers | src/ray/pubsub/publisher.h:131-133 | every returned id for a key is an all-keys subscriber, a subscriber of the key, or both (then it appears twice) |
| IndexModel.KeySubsMentioned | src/ray/pubsub/publisher.h:146-152 | everyone listed under a key is a subscriber the index mentions |
| IndexModel.AddEntrySubscribers | src/ray/pubsub/publisher.h:108-111 | adding an entry adds exactly its subscriber to those the index mentions |
| IndexModel.EraseEntrySubscribers | src/ray/pubsub/publisher.h:117-119 | erasing an entry never adds a subscriber |
| IndexModel.EraseSubscriberSubscribers | src/ray/pubsub/publisher.h:113-115 | erasing a subscriber takes exactly it out of those the index mentions |
| IndexModel.EraseSubscribersStep | src/ray/pubsub/publisher.h:386-406 | erasing subscribers one at a time, in any order, is erasing the whole set at once |
| IndexModel.EraseEveryoneLeavesNothing | src/ray/pubsub/publisher.h:137-138 | erasing every subscriber an index mentions leaves no entity, reverse entry or all-keys subscriber: `CheckNoLeaks` holds |
| SubscriptionIndexes.SubscriptionIndex.constructor | src/ray/pubsub/publisher.h:143-152 | a new index is empty and its entities use the channel's limits |
| SubscriptionIndexes.SubscriptionIndex.AddEntry | src/ray/pubsub/publisher.h:108-111 | the new index and the result are those of the value `AddEntry`; entity states and reverse index stay in step; every key keeps its entity object, a newly added key gets a fresh entity whose in-flight record is empty, and no existing in-flight record changes |
| SubscriptionIndexes.SubscriptionIndex.EraseEntry | src/ray/pubsub/publisher.h:117-119 | the new index and the result are those of the value `EraseEntry`; every remaining key keeps its entity object (none is created or replaced) and no in-flight record changes |
| SubscriptionIndexes.SubscriptionIndex.EraseSubscriber | src/ray/pubsub/publisher.h:113-115 | the new index and the result are those of the value `EraseSubscriber`; every remaining key keeps its entity object (none is created or replaced) and no in-flight record changes |
| SubscriptionIndexes.SubscriptionIndex.Publish | src/ray/pubsub/publisher.h:81-106 | the subscriptions and the entity map stay, and every entity still keeps its byte caps; a message within the per-message cap is recorded in flight, with eviction of the oldest, by the all-keys entity when it has subscribers and by the key's entity; every other in-flight record stays; true iff there are all-keys subscribers or the key is explicitly subscribed; the recipients are the all-keys entity and the key's entity, or nobody when the message exceeds the per-message cap |
| SubscriptionIndexes.SubscriptionIndex.HasKeyId | src/ray/pubsub/publisher.h:121-124 | true iff the key is explicitly subscribed |
| SubscriptionIndexes.SubscriptionIndex.HasSubscriber | src/ray/pubsub/publisher.h:126-129 | true iff the subscriber subscribes to all keys or to at least one key |
| SubscriptionIndexes.SubscriptionIndex.SubscriberIdsByKeyId | src/ray/pubsub/publisher.h:131-133 | the all-keys subscribers together with the key's subscribers |
| SubscriptionIndexes.SubscriptionIndex.CheckNoLeaks | src/ray/pubsub/publisher.h:137-138 | true iff no entity and no reverse entry remains |
| SubscriberStates.BatchLimitReading | src/ray/pubsub/publisher.h:429 | a batch size of 0 or more is the message count itself; a negative one (the test-only -1) is read as a `size_t` of at least 2^63 and cuts no mailbox |
| SubscriberStates.BatchIsBoundedPrefix | src/ray/pubsub/publisher.h:202-208 | a reply carries at most `BatchLimit(publish_batch_size)` messages, in FIFO order (a prefix of the mailbox), and leaves messages behind only when full |
| SubscriberStates.AckedCountSplits | src/ray/pubsub/publisher.h:473-477 | the acknowledged prefix has ids up to the processed id, and the first message after it has a larger id |
| SubscriberStates.AckedCountCovers | src/ray/pubsub/publisher.h:473-477 | any processed prefix is acknowledged in full |
| SubscriberStates.AckOfBatchRemovesBatch | src/ray/pubsub/publisher.h:473-477 | acknowledging a batch's last id removes the whole batch, and beyond it only copies of that same message |
| SubscriberStates.IdsInOrderAppend | src/ray/pubsub/publisher.h:478-484 | queuing a message with a newer sequence id keeps the mailbox in sequence order |
| SubscriberStates.IdsInOrderSuffix | src/ray/pubsub/publisher.h:473-477 | dropping acknowledged messages keeps the mailbox in sequence order |
| SubscriberStates.PublishReplies | src/ray/pubsub/publisher.h:202-208 | `PublishIfPossible` replies only with a cached request, and then only if there is something to send or a no-op is forced; it sends at most one batch of the oldest messages, uses up the request and never changes the mailbox |
| SubscriberStates.ConnectLeavesOneRequest | src/ray/pubsub/publisher.h:185-192 | after a poll the mailbox holds the unacknowledged rest; the new request stays cached iff that rest is empty, otherwise it is answered with the oldest batch; an older cached request first gets an empty reply |
| SubscriberStates.ConnectDropsAcknowledged | src/ray/pubsub/publisher.h:473-477 | only a poll naming this publisher acknowledges; the dropped messages are exactly the prefix up to the acknowledged id |
| SubscriberStates.QueueThenPublish | src/ray/pubsub/publisher.h:194-200 | queuing appends the message; with a cached request the oldest batch is sent at once |
| SubscriberStates.QueueTimesAppends | src/ray/pubsub/publisher.h:194-200 | queuing a message n times appends n copies and uses the connection at most once |
| SubscriberStates.TwoTimeouts | src/ray/pubsub/publisher.h:389-403 | a connected subscriber is never dead at the first check; it can be dead later only after two timeouts since its last activity |
| SubscriberStates.CheckKeepsDead | src/ray/pubsub/publisher.h:389-403 | a check leaves a dead subscriber as it was and never touches a mailbox; the connection stays iff it was active |
| SubscriberStates.SubscriberState.constructor | src/ray/pubsub/publisher.h:167-177 | no connection, an empty mailbox, last update at the current time |
| SubscriberStates.SubscriberState.ConnectionExists | src/ray/pubsub/publisher.h:213-214 | true iff a long-polling request is cached |
| SubscriberStates.SubscriberState.IsActive | src/ray/pubsub/publisher.h:216-218 | true iff the last request or reply was less than the timeout ago |
| SubscriberStates.SubscriberState.CheckNoLeaks | src/ray/pubsub/publisher.h:210-211 | true iff no request is cached and the mailbox is empty |
| SubscriberStates.SubscriberState.PublishIfPossible | src/ray/pubsub/publisher.h:202-208 | returns whether it replied, and the new state is the publish transition whose properties `PublishReplies` states |
| SubscriberStates.SubscriberState.QueueMessage | src/ray/pubsub/publisher.h:194-200 | the new state is the queue transition whose properties `QueueThenPublish` states |
| SubscriberStates.SubscriberState.ConnectToSubscriber | src/ray/pubsub/publisher.h:185-192 | the new state is the poll transition: drop the acknowledged prefix, answer an older request, cache the new one, publish |
| SubscriberStates.SubscriberState.PopAcknowledged | src/ray/pubsub/publisher.h:473-477 | drops exactly the acknowledged prefix of the mailbox |
| Publishers.Tally | src/ray/pubsub/publisher.h:467-471 | the tally of the message's channel grows by the amount (from 0 for a new channel); other channels are untouched |
| Publishers.Publisher.constructor | src/ray/pubsub/publisher.h:312-331 | one empty index per given channel with that channel's entity limits, no subscribers, empty tallies, sequence counter 0 |
| Publishers.Publisher.RegisterSubscription | src/ray/pubsub/publisher.h:344-352 | creates the subscriber's state if needed; the channel's index and the result are those of `AddEntry` (true iff new); in that channel every key keeps its entity object and a new key's entity is fresh with an empty in-flight record; other channels (entities included) and states are unchanged |
| Publishers.Publisher.UnregisterSubscription | src/ray/pubsub/publisher.h:368-377 | the channel's index and the result are those of `EraseEntry` (true iff erased); the channel's remaining keys keep their entity objects; other channels (entities included) are unchanged |
| Publishers.Publisher.Stamp | src/ray/pubsub/publisher.h:473-484 | the counter strictly increases by one and the message carries the new id, which is at least 1; both tallies of the channel grow |
| Publishers.Publisher.Publish | src/ray/pubsub/publisher.h:354-358 | stamps the message; the subscriber set and every index's subscriptions are unchanged; the channel's index records the stamped message in flight as `SubscriptionIndex.Publish` states; each subscriber gets the message queued once per entity (all-keys, key) it is in, or not at all when it is oversized |
| Publishers.Publisher.PublishFailure | src/ray/pubsub/publisher.h:360-366 | publishes a failure message for the key to its subscribers and all-keys subscribers, stamped, tallied and recorded in flight like any message |
| Publishers.Publisher.ConnectToSubscriber | src/ray/pubsub/publisher.h:334-342 | creates the poller's state if needed and applies the poll transition to it only |
| Publishers.Publisher.UnregisterSubscriberInternal | src/ray/pubsub/publisher.h:438-439 | the subscriber is erased from every index; the count is the number of indexes that had it; its state is flushed with a forced reply and removed; others are unchanged; in every index each remaining key keeps its entity object |
| Publishers.Publisher.UnregisterSubscriber | src/ray/pubsub/publisher.h:379-384 | as above (remaining keys keep their entity objects in every index); returns true iff some index had the subscriber |
| Publishers.Publisher.UnregisterEach | src/ray/pubsub/publisher.h:386-406 | removing a set of subscribers one by one is erasing the whole set from every index, dropping their states after a forced reply, and leaving the others alone; no index creates or replaces an entity |
| Publishers.Publisher.UnregisterAll | src/ray/pubsub/publisher.h:386-387 | afterwards no subscriber state remains and every index has no leaks and no all-keys subscriber |
| Publishers.Publisher.CheckDeadSubscribers | src/ray/pubsub/publisher.h:389-406 | exactly the dead subscribers are removed from the states and every index; every other subscriber goes through the check transition; no index creates or replaces an entity |
| Publishers.Publisher.CheckNoLeaks | src/ray/pubsub/publisher.h:431-432 | true iff every index has no leaks and no subscriber state remains |
| LightgbmTrainerContract.GetCheckpoint | python/ray/train/tests/test_lightgbm_trainer.py:176-193 | a checkpoint iff the rank is 0 or absent; it holds one tree per completed round |
| LightgbmTrainerContract.ReportedCheckpoints | python/ray/train/tests/test_lightgbm_trainer.py:102-139 | the callback's reports carry checkpoints exactly at the frequency rounds, with one tree per completed round |
| LightgbmTrainerContract.CheckpointRoundsReference | python/ray/train/tests/test_lightgbm_trainer.py:105-110 | the kept rounds are the frequency rounds, then the last round when at-end is set and it is not already one |
| LightgbmTrainerContract.CheckpointRoundsMembers | python/ray/train/tests/test_lightgbm_trainer.py:105-110 | a round is kept iff it is a frequency round, or it is the last round and at-end is set |
| LightgbmTrainerContract.CheckpointRoundsIncreasing | python/ray/train/tests/test_lightgbm_trainer.py:137-139 | the kept rounds strictly increase, so the end checkpoint is never duplicated |
| LightgbmTrainerContract.OtherRanksReportNoCheckpoint | python/ray/train/tests/test_lightgbm_trainer.py:190-193 | a worker of rank other than 0 reports every round and never a checkpoint |
| LightgbmTrainerContract.UnrankedSameAsRankZero | python/ray/train/tests/test_lightgbm_trainer.py:176-191 | a worker without a rank reports as the rank-0 worker does |
| LightgbmTrainerContract.FrequencyRoundsClosedForm | python/ray/train/tests/test_lightgbm_trainer.py:105-108 | with F > 0 the frequency rounds of n rounds are F-1, 2F-1, ..., one per completed block |
| LightgbmTrainerContract.CheckpointCount | python/ray/train/tests/test_lightgbm_trainer.py:133 | the number of checkpoints is n div F, plus one at the end unless round n-1 already closed a block |
| LightgbmTrainerContract.FrequencyFourWithEnd | python/ray/train/tests/test_lightgbm_trainer.py:106 | 25 rounds, F=4, at end: rounds 3, 7, 11, 15, 19, 23, 24, 7 checkpoints |
| LightgbmTrainerContract.FrequencyFourWithoutEnd | python/ray/train/tests/test_lightgbm_trainer.py:107 | 25 rounds, F=4, no end: rounds 3, 7, 11, 15, 19, 23, 6 checkpoints |
| LightgbmTrainerContract.FrequencyFiveWithEnd | python/ray/train/tests/test_lightgbm_trainer.py:108 | 25 rounds, F=5, at end: rounds 4, 9, 14, 19, 24, 5 checkpoints |
| LightgbmTrainerContract.NoFrequencyWithEnd | python/ray/train/tests/test_lightgbm_trainer.py:109 | no frequency, at end: only round 24 |
| LightgbmTrainerContract.NoFrequencyWithoutEnd | python/ray/train/tests/test_lightgbm_trainer.py:110 | no frequency, no end: no checkpoint |
| LightgbmTrainerContract.RankGatingCases | python/ray/train/tests/test_lightgbm_trainer.py:176-193 | the three parametrised ranks: None and 0 get a checkpoint, 1 does not |
| LightgbmTrainerContract.CheckpointPathsSorted | python/ray/train/tests/test_lightgbm_trainer.py:137-139 | zero-padded checkpoint paths in report order are strictly sorted, so `cp_paths == sorted(cp_paths)` |
| LightgbmTrainerContract.ResumeTargetIsAbsolute | python/ray/train/tests/test_lightgbm_trainer.py:88-99 | a resumed fit ends with `num_boost_round` trees, or with the checkpoint's trees if those are already more |
| LightgbmTrainerContract.ResumeFromCheckpointCase | python/ray/train/tests/test_lightgbm_trainer.py:74-99 | 5 rounds, then a resume with target 10, gives 10 trees and not 15 |
| LightgbmTrainerContract.Construct | python/ray/train/tests/test_lightgbm_trainer.py:160-173 | construction succeeds iff a "train" dataset and a label column are given; the errors name "train" or "label_column" |
| LightgbmTrainerContract.ValidationCases | python/ray/train/tests/test_lightgbm_trainer.py:160-173 | the two refused constructions of the validation test raise a `ValueError` matching the expected text |
| AutoscalerSdk.RequestResources | python/ray/autoscaler/sdk/sdk.py:243-259 | the arguments are forwarded unchanged iff they are well typed; otherwise a `TypeError` with one of the four messages |
| AutoscalerSdk.EntriesOk | python/ray/autoscaler/sdk/sdk.py:249-253 | a dict passes iff every key is a str and every value an int (a bool counts as an int) |
| AutoscalerSdk.BundlesError | python/ray/autoscaler/sdk/sdk.py:247-255 | no error iff every bundle passes; any error is that of some bundle |
| AutoscalerSdk.NumCpusCheckedFirst | python/ray/autoscaler/sdk/sdk.py:243-244 | a present non-int `num_cpus` raises "num_cpus should be of type int." whatever `bundles` is |
| AutoscalerSdk.BundlesMustBeList | python/ray/autoscaler/sdk/sdk.py:245-257 | a present non-list `bundles` raises "bundles should be of type List" |
| AutoscalerSdk.FirstFailingBundleDecides | python/ray/autoscaler/sdk/sdk.py:247-255 | the first failing bundle in list order decides the error |
| AutoscalerSdk.FirstFailingBundleRaises | python/ray/autoscaler/sdk/sdk.py:243-259 | with a valid `num_cpus`, the call raises the first failing bundle's error |
| AutoscalerSdk.BundleErrorKinds | python/ray/autoscaler/sdk/sdk.py:248-255 | a non-dict bundle raises "each bundle should be a Dict."; a dict with a bad key or value raises "each bundle key should be str and value as int." |
| AutoscalerSdk.AcceptedEdgeCases | python/ray/autoscaler/sdk/sdk.py:243-259 | None/None, an empty list, an empty dict bundle and a bool `num_cpus` are all accepted |
| AutoscalerSdk.DocstringExamples | python/ray/autoscaler/sdk/sdk.py:232-241 | the docstring's three calls are accepted |
| AutoscalerSdk.RejectedExamples | python/ray/autoscaler/sdk/sdk.py:243-257 | one rejected call per message, and the order between the checks |
| AutoscalerSdk.DockerHostMountLocation | python/ray/autoscaler/sdk/sdk.py:340-343 | the path is "/tmp/ray_tmp_mount/" followed by the cluster name |
| AutoscalerSdk.DockerHostMountLocationInjective | python/ray/autoscaler/sdk/sdk.py:340-343 | distinct cluster names get distinct mount locations |

## Left out

- `src/ray/util/process.h`: process spawning, file descriptors, signals and `/proc` scanning are operating-system I/O.
- `python/ray/tune/examples/tf_mnist_example.py`: TensorFlow training and file locks hold no deterministic logic.
- Mutexes, `PeriodicalRunner` scheduling and `SubscriberState`'s clock callback are not modelled. Each operation is one atomic step, and the current time is the `nowMs` parameter, an integer number of milliseconds in place of a `double`.
- gRPC long-poll plumbing is not modelled. A `LongPollConnection` and its `send_reply_callback` are a flag; the replies sent are kept in the `replies` field.
- Protobuf messages keep only the fields the publisher reads or writes. The serialised size (`ByteSizeLong`) is the `msgSize` parameter.
- `weak_ptr` expiry of in-flight messages is not modelled: the in-flight record forgets a message only by eviction.
- The gRPC byte cap that may cut a batch short is not modelled.
- `DebugString` is not modelled: it only formats text.
- `SubscriptionIndex::GetNumBufferedBytes` (line 135) is not modelled. Its definition is not in the header; `EntityState::NumBufferedBytes` covers the per-entity count.
- `EntityState::Subscribers()` is exposed as the `subscribers` field.
- `CreateEntityState` reads the process configuration; here the per-channel byte limits are the constructor's `limits` parameter.
- The constructor takes the channels where publishing and subscribing are accepted (`publisher.h:304`). A call on any other channel is outside that contract; the model excludes it with the precondition `ch in indexes`, a modelling choice.
- `UnregisterAll` and `CheckDeadSubscribers` remove subscribers in an unspecified order, and the model proves the result independent of it. The order in which forced no-op replies go out is the one thing this leaves open.
- Publishers.Publisher.Stamp: the `int64_t` sequence counter and the `uint64_t` tallies are unbounded integers here; overflow after 2^63 messages is not modelled.
- SubscriberStates.SubscriberState.PublishIfPossible: a batch is capped by message count only, not by the gRPC byte cap.
- The trainer, LightGBM boosting, datasets, cluster fixtures, mocks, the categorical test and concurrent Tune trials are not modelled. The checkpoint directory name is a modelling choice: `checkpoint_` plus a six-digit index in report order.
- The trainer checks the dataset map before the label column. The test does not fix this order. The two error texts are modelling choices, and the test fixes only that they contain "train" and "label_column".
- The other functions of `sdk.py` forward to `commands.*`, or do temp-file I/O, logging or callback registration, and are not modelled. `request_resources` returns what it forwards rather than calling the autoscaler.
