/**
  `Publisher` of `src/ray/pubsub/publisher.h`: one subscription index per
  channel, one `SubscriberState` per known subscriber, the per-channel
  publication tallies and the sequence-id counter. Every method is stated
  against the value views of the indexes (`IndexModel`) and of the subscriber
  states (`SubscriberStates`); the clock is the parameter `nowMs` and the
  serialised size of a message the parameter `msgSize`.
*/
module Publishers {
  import opened Options
  import opened PubsubTypes
  import IndexModel
  import opened EntityStates
  import opened SubscriptionIndexes
  import opened SubscriberStates

  /** The per-channel tally after one more message of `bytes` bytes (a missing channel counts from 0). */
  function Tally(m: map<ChannelType, nat>, ch: ChannelType, bytes: nat): (r: map<ChannelType, nat>)
    ensures r.Keys == m.Keys + {ch}
    ensures r[ch] == (if ch in m then m[ch] else 0) + bytes
    ensures forall c :: c in m && c != ch ==> r[c] == m[c]
  {
    m[ch := (if ch in m then m[ch] else 0) + bytes]
  }

  /** `key_id.value_or("")`: no key means every key of the channel. */
  function KeyOrAll(key: Option<KeyId>): KeyId {
    match key
    case None => AllKeys
    case Some(k) => k
  }

  /*
    `Named`, `Framed` and `Known` are always true and model nothing of the
    publisher. They are trigger guards: the invariants below quantify over
    channels or subscribers with one of them as the trigger, so the solver
    unfolds an index or a subscriber state only where a proof mentions it.
  */

  /**
    Names a channel whose index a proof looks into; the invariants quantify over
    channels with this as their trigger, so an index is unfolded only where named.
  */
  predicate Named(ch: ChannelType) { true }

  /** Names a channel whose entity states a proof needs to place inside `Entities`. */
  predicate Framed(ch: ChannelType) { true }

  /** The same for the subscribers a proof looks into. */
  predicate Known(s: SubscriberId) { true }

  class Publisher {
    const subscriberTimeoutMs: nat
    const publishBatchSize: int
    const publisherId: PublisherId
    /** `subscription_index_map_`: one index per channel, fixed at construction. */
    const indexes: map<ChannelType, SubscriptionIndex>
    var subscribers: map<SubscriberId, SubscriberState>
    var cumPubMessageCnt: map<ChannelType, nat>
    var cumPubMessageBytesCnt: map<ChannelType, nat>
    var nextSequenceId: int

    /** The entity states of all indexes; it may keep entities no longer in use. */
    ghost var Entities: set<EntityState>

    /** The settings every subscriber state is created with. */
    function Config(): Settings
      requires -0x8000_0000_0000_0000 <= publishBatchSize < 0x8000_0000_0000_0000
    {
      Settings(publisherId, BatchLimit(publishBatchSize), subscriberTimeoutMs)
    }

    /** The index of `ch` is filed under its own channel and valid. */
    ghost predicate IndexOk(ch: ChannelType)
      requires ch in indexes
      reads {indexes[ch]}`entities, {indexes[ch]}`subscribersToKeyId, {indexes[ch]}`view, {indexes[ch]}`Repr, indexes[ch].Repr`subscribers, indexes[ch].Repr`inFlight
    {
      indexes[ch].channelType == ch && indexes[ch].Valid()
    }

    /** Every index is valid, and `Entities` covers their entity states. */
    ghost predicate IndexesValid()
      reads this`Entities, indexes.Values`entities, indexes.Values`subscribersToKeyId, indexes.Values`view, indexes.Values`Repr, Entities`subscribers, Entities`inFlight
    {
      && (forall ch {:trigger Framed(ch)} :: Framed(ch) && ch in indexes ==> indexes[ch].Repr <= Entities)
      && (forall ch {:trigger Named(ch)} :: Named(ch) && ch in indexes && Framed(ch) ==> IndexOk(ch))
    }

    /** One subscriber state: created with this publisher's settings, its mailbox in sequence order and only holding published ids. */
    ghost predicate SubscriberOk(s: SubscriberId, st: SubscriberState)
      reads this`nextSequenceId, st`mailbox
    {
      && st.id == s && st.Valid()
      && st.publisherId == publisherId
      && st.publishBatchSize == publishBatchSize
      && st.connectionTimeoutMs == subscriberTimeoutMs
      && IdsInOrder(st.mailbox, 1, nextSequenceId)
    }

    ghost predicate SubscribersValid()
      reads this`subscribers, this`nextSequenceId, subscribers.Values`mailbox
    {
      forall s {:trigger Known(s)} :: Known(s) && s in subscribers ==> SubscriberOk(s, subscribers[s])
    }

    /** Every subscriber an index mentions has a subscriber state. */
    ghost predicate Covered()
      reads this`subscribers, indexes.Values`view
    {
      forall ch {:trigger Named(ch)} :: Named(ch) && ch in indexes ==> IndexModel.Subscribers(indexes[ch].view) <= subscribers.Keys
    }

    ghost predicate Valid()
      reads this`subscribers, this`cumPubMessageCnt, this`cumPubMessageBytesCnt, this`nextSequenceId, this`Entities, indexes.Values`entities, indexes.Values`subscribersToKeyId, indexes.Values`view, indexes.Values`Repr, Entities`subscribers, Entities`inFlight, subscribers.Values`mailbox
    {
      && -0x8000_0000_0000_0000 <= publishBatchSize < 0x8000_0000_0000_0000
      && nextSequenceId >= 0
      && IndexesValid()
      && SubscribersValid()
      && Covered()
    }

    /**
      One empty index per listed channel (a repeated channel is kept once),
      no subscriber, no tally and the sequence counter at 0. The entity limits
      of each channel are the parameter `limits`.
    */
    constructor (channels: seq<ChannelType>, limits: ChannelType -> Limits, subscriberTimeoutMs: nat, publishBatchSize: int, publisherId: PublisherId)
      requires -0x8000_0000_0000_0000 <= publishBatchSize < 0x8000_0000_0000_0000
      ensures Valid()
      ensures indexes.Keys == set i | 0 <= i < |channels| :: channels[i]
      ensures forall ch :: ch in indexes ==> indexes[ch].view == IndexModel.EmptyIndex && indexes[ch].limits == limits(ch)
      ensures subscribers == map[] && cumPubMessageCnt == map[] && cumPubMessageBytesCnt == map[]
      ensures nextSequenceId == 0
      ensures this.subscriberTimeoutMs == subscriberTimeoutMs && this.publishBatchSize == publishBatchSize
      ensures this.publisherId == publisherId
    {
      var m, entities := MakeIndexes(channels, limits);
      this.subscriberTimeoutMs := subscriberTimeoutMs;
      this.publishBatchSize := publishBatchSize;
      this.publisherId := publisherId;
      indexes := m;
      subscribers := map[];
      cumPubMessageCnt := map[];
      cumPubMessageBytesCnt := map[];
      nextSequenceId := 0;
      Entities := entities;
    }

    /** One fresh empty index per distinct channel. */
    static method MakeIndexes(channels: seq<ChannelType>, limits: ChannelType -> Limits) returns (m: map<ChannelType, SubscriptionIndex>, ghost entities: set<EntityState>)
      ensures m.Keys == set i | 0 <= i < |channels| :: channels[i]
      ensures forall ch :: ch in m ==> m[ch].channelType == ch && m[ch].Valid() && m[ch].limits == limits(ch)
      ensures forall ch :: ch in m ==> m[ch].view == IndexModel.EmptyIndex && m[ch].Repr <= entities
    {
      m := map[];
      entities := {};
      var i := 0;
      while i < |channels|
        invariant i <= |channels|
        invariant m.Keys == set j | 0 <= j < i :: channels[j]
        invariant forall ch :: ch in m ==> m[ch].channelType == ch && m[ch].Valid() && m[ch].limits == limits(ch)
        invariant forall ch :: ch in m ==> m[ch].view == IndexModel.EmptyIndex && m[ch].Repr <= entities
      {
        var ch := channels[i];
        if ch !in m {
          var index := new SubscriptionIndex(ch, limits(ch));
          m := m[ch := index];
          entities := entities + index.Repr;
        }
        assert (set j | 0 <= j < i + 1 :: channels[j]) == (set j | 0 <= j < i :: channels[j]) + {ch};
        i := i + 1;
      }
    }

    /** Every index keeps only entities its keys had in `before`: none was created or replaced. */
    ghost predicate EntitiesWithin(before: map<ChannelType, map<KeyId, EntityState>>)
      reads indexes.Values`entities
    {
      forall c :: c in indexes ==> c in before && indexes[c].EntitiesWithin(before[c])
    }

    /** A subscriber state for `sid`, created at `nowMs` if there is none yet. */
    method EnsureSubscriber(sid: SubscriberId, nowMs: int)
      requires Valid()
      modifies this`subscribers
      ensures Valid()
      ensures sid in subscribers
      ensures sid in old(subscribers) ==> subscribers == old(subscribers)
      ensures sid !in old(subscribers) ==>
        && subscribers == old(subscribers)[sid := subscribers[sid]]
        && fresh(subscribers[sid]) && subscribers[sid].View() == SubscriberView(false, [], nowMs, [])
    {
      if sid !in subscribers {
        var st := NewSubscriber(sid, nowMs);
        subscribers := subscribers[sid := st];
      }
    }

    /** A fresh subscriber state with this publisher's settings. */
    method NewSubscriber(sid: SubscriberId, nowMs: int) returns (st: SubscriberState)
      requires -0x8000_0000_0000_0000 <= publishBatchSize < 0x8000_0000_0000_0000
      ensures fresh(st) && SubscriberOk(sid, st) && st.View() == SubscriberView(false, [], nowMs, [])
    {
      st := new SubscriberState(sid, subscriberTimeoutMs, publishBatchSize, publisherId, nowMs);
    }

    /** `AddEntry` on the index of `ch`, for a subscriber that has a state. */
    method AddToIndex(ch: ChannelType, key: KeyId, sid: SubscriberId) returns (isNew: bool)
      requires Valid() && ch in indexes && sid in subscribers
      modifies this`Entities, indexes[ch], indexes[ch].Repr`subscribers
      ensures Valid()
      ensures IndexModel.Update(indexes[ch].view, isNew) == IndexModel.AddEntry(old(indexes[ch].view), key, sid)
      ensures forall c :: c in indexes && c != ch ==> indexes[c].view == old(indexes[c].view) && indexes[c].entities == old(indexes[c].entities)
      ensures indexes[ch].KeepsEntities(old(indexes[ch].entities))
      ensures forall k :: k in indexes[ch].entities && k !in old(indexes[ch].entities) ==>
        fresh(indexes[ch].entities[k]) && indexes[ch].entities[k].inFlight == InFlight([], [], 0)
    {
      assert Named(ch);
      ghost var v0 := indexes[ch].view;
      isNew := IndexAdd(ch, key, sid);
      assert IndexModel.Subscribers(indexes[ch].view) <= subscribers.Keys by {
        IndexModel.AddEntrySubscribers(v0, key, sid);
      }
    }

    /** `AddEntry` on the index of `ch`; the other indexes stay as they are. */
    method IndexAdd(ch: ChannelType, key: KeyId, sid: SubscriberId) returns (isNew: bool)
      requires IndexesValid() && ch in indexes
      modifies this`Entities, indexes[ch], indexes[ch].Repr`subscribers
      ensures IndexesValid()
      ensures IndexModel.Update(indexes[ch].view, isNew) == IndexModel.AddEntry(old(indexes[ch].view), key, sid)
      ensures forall c :: c in indexes && c != ch ==> indexes[c].view == old(indexes[c].view) && indexes[c].Repr == old(indexes[c].Repr) && indexes[c].entities == old(indexes[c].entities)
      ensures indexes[ch].KeepsEntities(old(indexes[ch].entities))
      ensures forall k :: k in indexes[ch].entities && k !in old(indexes[ch].entities) ==>
        fresh(indexes[ch].entities[k]) && indexes[ch].entities[k].inFlight == InFlight([], [], 0)
    {
      assert Named(ch);
      var index := indexes[ch];
      label Before:
      isNew := index.AddEntry(key, sid);
      Entities := Entities + index.Repr;
      forall c | c in indexes && c != ch
        ensures indexes[c].view == old@Before(indexes[c].view) && indexes[c].Repr == old@Before(indexes[c].Repr)
        ensures indexes[c].entities == old@Before(indexes[c].entities)
        ensures indexes[c].Repr <= Entities && IndexOk(c)
      {
        assert Named(c) && Framed(c);
        assert old@Before(indexes[c].Repr <= Entities && IndexOk(c));
        assert unchanged@Before(indexes[c]) && unchanged@Before(indexes[c].Repr);
      }
    }

    /** `EraseEntry` on the index of `ch`; the other indexes stay as they are. */
    method IndexErase(ch: ChannelType, key: KeyId, sid: SubscriberId) returns (erased: bool)
      requires IndexesValid() && ch in indexes
      modifies indexes[ch], indexes[ch].Repr`subscribers
      ensures IndexesValid()
      ensures IndexModel.Update(indexes[ch].view, erased) == IndexModel.EraseEntry(old(indexes[ch].view), key, sid)
      ensures forall c :: c in indexes && c != ch ==> indexes[c].view == old(indexes[c].view) && indexes[c].Repr == old(indexes[c].Repr) && indexes[c].entities == old(indexes[c].entities)
      ensures indexes[ch].EntitiesWithin(old(indexes[ch].entities))
    {
      assert Named(ch);
      var index := indexes[ch];
      label Before:
      erased := index.EraseEntry(key, sid);
      forall c | c in indexes && c != ch
        ensures indexes[c].view == old@Before(indexes[c].view) && indexes[c].Repr == old@Before(indexes[c].Repr)
        ensures indexes[c].entities == old@Before(indexes[c].entities)
        ensures indexes[c].Repr <= Entities && IndexOk(c)
      {
        assert Named(c) && Framed(c);
        assert old@Before(indexes[c].Repr <= Entities && IndexOk(c));
        assert unchanged@Before(indexes[c]) && unchanged@Before(indexes[c].Repr);
      }
    }

    /** `EraseSubscriber` on the index of `ch`; the other indexes stay as they are. */
    method IndexEraseSubscriber(ch: ChannelType, sid: SubscriberId) returns (existed: bool)
      requires IndexesValid() && ch in indexes
      modifies indexes[ch], indexes[ch].Repr`subscribers
      ensures IndexesValid()
      ensures indexes[ch].view == IndexModel.EraseSubscriber(old(indexes[ch].view), sid).view
      ensures existed == IndexModel.HasSubscriber(old(indexes[ch].view), sid)
      ensures forall c :: c in indexes && c != ch ==> indexes[c].view == old(indexes[c].view) && indexes[c].Repr == old(indexes[c].Repr) && indexes[c].entities == old(indexes[c].entities)
      ensures indexes[ch].EntitiesWithin(old(indexes[ch].entities))
      ensures forall c :: c in indexes ==> indexes[c].EntitiesWithin(old(indexes[c].entities))
    {
      assert Named(ch);
      var index := indexes[ch];
      label Before:
      existed := index.EraseSubscriber(sid);
      forall c | c in indexes && c != ch
        ensures indexes[c].view == old@Before(indexes[c].view) && indexes[c].Repr == old@Before(indexes[c].Repr)
        ensures indexes[c].entities == old@Before(indexes[c].entities)
        ensures indexes[c].Repr <= Entities && IndexOk(c)
      {
        assert Named(c) && Framed(c);
        assert old@Before(indexes[c].Repr <= Entities && IndexOk(c));
        assert unchanged@Before(indexes[c]) && unchanged@Before(indexes[c].Repr);
      }
    }

    /**
      `RegisterSubscription`: creates the subscriber state if there is none,
      then adds the entry to the channel's index (no key: all keys). True iff
      the registration is new.
    */
    method RegisterSubscription(ch: ChannelType, sid: SubscriberId, key: Option<KeyId>, nowMs: int) returns (isNew: bool)
      requires Valid() && ch in indexes
      modifies this`subscribers, this`Entities, indexes[ch], indexes[ch].Repr`subscribers
      ensures Valid()
      ensures IndexModel.Update(indexes[ch].view, isNew) == IndexModel.AddEntry(old(indexes[ch].view), KeyOrAll(key), sid)
      ensures forall c :: c in indexes && c != ch ==> indexes[c].view == old(indexes[c].view) && indexes[c].entities == old(indexes[c].entities)
      ensures indexes[ch].KeepsEntities(old(indexes[ch].entities))
      ensures forall k :: k in indexes[ch].entities && k !in old(indexes[ch].entities) ==>
        fresh(indexes[ch].entities[k]) && indexes[ch].entities[k].inFlight == InFlight([], [], 0)
      ensures subscribers.Keys == old(subscribers).Keys + {sid}
      ensures forall s :: s in old(subscribers) ==> subscribers[s] == old(subscribers[s])
      ensures sid !in old(subscribers) ==> fresh(subscribers[sid]) && subscribers[sid].View() == SubscriberView(false, [], nowMs, [])
    {
      EnsureSubscriber(sid, nowMs);
      isNew := AddToIndex(ch, KeyOrAll(key), sid);
    }

    /**
      `UnregisterSubscription`: erases the entry from the channel's index (no
      key: the all-keys subscription). True iff something was erased. The
      subscriber state stays.
    */
    method UnregisterSubscription(ch: ChannelType, sid: SubscriberId, key: Option<KeyId>) returns (erased: bool)
      requires Valid() && ch in indexes
      modifies indexes[ch], indexes[ch].Repr`subscribers
      ensures Valid()
      ensures IndexModel.Update(indexes[ch].view, erased) == IndexModel.EraseEntry(old(indexes[ch].view), KeyOrAll(key), sid)
      ensures forall c :: c in indexes && c != ch ==> indexes[c].view == old(indexes[c].view) && indexes[c].entities == old(indexes[c].entities)
      ensures indexes[ch].EntitiesWithin(old(indexes[ch].entities))
    {
      assert Named(ch);
      ghost var v0 := indexes[ch].view;
      erased := IndexErase(ch, KeyOrAll(key), sid);
      assert IndexModel.Subscribers(indexes[ch].view) <= subscribers.Keys by {
        IndexModel.EraseEntrySubscribers(v0, KeyOrAll(key), sid);
      }
    }

    /**
      Queues `m` once on every subscriber in `recipients`, publishing at once
      to those with a cached request. `m` carries the latest sequence id, so
      every mailbox stays in order.
    */
    method Deliver(m: PubMessage, recipients: set<SubscriberId>, nowMs: int)
      requires SubscribersValid() && -0x8000_0000_0000_0000 <= publishBatchSize < 0x8000_0000_0000_0000
      requires m.sequenceId == nextSequenceId >= 1
      requires recipients <= subscribers.Keys
      modifies subscribers.Values`mailbox, subscribers.Values`connected, subscribers.Values`lastConnectionUpdateTimeMs, subscribers.Values`replies
      ensures SubscribersValid()
      ensures forall t :: t in subscribers ==>
        subscribers[t].View() == if t in recipients then AfterQueue(old(subscribers[t].View()), m, true, nowMs, Config()) else old(subscribers[t].View())
    {
      var rest := recipients;
      while rest != {}
        invariant rest <= recipients
        invariant SubscribersValid()
        invariant forall t :: t in subscribers ==>
          subscribers[t].View() == if t in recipients - rest then AfterQueue(old(subscribers[t].View()), m, true, nowMs, Config()) else old(subscribers[t].View())
        decreases |rest|
      {
        var s :| s in rest;
        QueueOn(s, m, nowMs);
        rest := rest - {s};
      }
    }

    /** `QueueMessage(m)` on the state of `s`; the other states stay as they are. */
    method QueueOn(s: SubscriberId, m: PubMessage, nowMs: int)
      requires SubscribersValid() && -0x8000_0000_0000_0000 <= publishBatchSize < 0x8000_0000_0000_0000
      requires m.sequenceId == nextSequenceId >= 1 && s in subscribers
      modifies {subscribers[s]}`mailbox, {subscribers[s]}`connected, {subscribers[s]}`lastConnectionUpdateTimeMs, {subscribers[s]}`replies
      ensures SubscribersValid()
      ensures subscribers[s].View() == AfterQueue(old(subscribers[s].View()), m, true, nowMs, Config())
      ensures forall t :: t in subscribers && t != s ==> unchanged(subscribers[t])
    {
      var st := subscribers[s];
      assert Known(s);
      forall t | t in subscribers && t != s ensures subscribers[t] != st {
        assert Known(t);
      }
      IdsInOrderAppend(st.mailbox, m, 1, nextSequenceId);
      st.QueueMessage(m, true, nowMs);
    }

    /**
      `++next_sequence_id_` stamped into the message (an id of at least 1),
      then the message and its bytes counted for its channel.
    */
    method Stamp(msg: PubMessage, msgSize: nat) returns (stamped: PubMessage)
      requires Valid()
      modifies this`nextSequenceId, this`cumPubMessageCnt, this`cumPubMessageBytesCnt
      ensures Valid()
      ensures nextSequenceId == old(nextSequenceId) + 1
      ensures stamped == msg.(sequenceId := nextSequenceId)
      ensures cumPubMessageCnt == Tally(old(cumPubMessageCnt), msg.channelType, 1)
      ensures cumPubMessageBytesCnt == Tally(old(cumPubMessageBytesCnt), msg.channelType, msgSize)
    {
      forall s | s in subscribers ensures IdsInOrder(subscribers[s].mailbox, 1, nextSequenceId + 1) {
        assert Known(s);
        IdsInOrderWiden(subscribers[s].mailbox, 1, nextSequenceId, 1, nextSequenceId + 1);
      }
      nextSequenceId, cumPubMessageCnt, cumPubMessageBytesCnt :=
        nextSequenceId + 1, Tally(cumPubMessageCnt, msg.channelType, 1), Tally(cumPubMessageBytesCnt, msg.channelType, msgSize);
      stamped := msg.(sequenceId := nextSequenceId);
    }

    /**
      `Publish`: stamps the message with the next sequence id, counts it and
      its `msgSize` bytes for its channel, and queues it on every subscriber
      of its key or of all keys of the channel (twice on one that is both),
      unless it exceeds the channel's per-message cap. The subscriptions stay.
    */
    method Publish(msg: PubMessage, msgSize: nat, nowMs: int)
      requires Valid() && msg.channelType in indexes
      modifies this`nextSequenceId, this`cumPubMessageCnt, this`cumPubMessageBytesCnt
      modifies indexes[msg.channelType].Repr`inFlight, subscribers.Values`mailbox, subscribers.Values`connected, subscribers.Values`lastConnectionUpdateTimeMs, subscribers.Values`replies
      ensures Valid()
      ensures nextSequenceId == old(nextSequenceId) + 1
      ensures cumPubMessageCnt == Tally(old(cumPubMessageCnt), msg.channelType, 1)
      ensures cumPubMessageBytesCnt == Tally(old(cumPubMessageBytesCnt), msg.channelType, msgSize)
      ensures subscribers == old(subscribers)
      ensures forall c :: c in indexes ==> indexes[c].view == old(indexes[c].view)
      ensures indexes[msg.channelType].Recorded(old(indexes[msg.channelType].InFlights()), msg.(sequenceId := nextSequenceId), msgSize)
      ensures var index := indexes[msg.channelType];
        var recipients := if msgSize <= ToSizeT(index.limits.maxMessageSizeBytes)
                          then IndexModel.SubscriberIdsByKeyId(index.view, msg.keyId) else multiset{};
        forall t :: t in subscribers ==>
          subscribers[t].View() == AfterQueueTimes(old(subscribers[t].View()), msg.(sequenceId := nextSequenceId), recipients[t], nowMs, Config())
    {
      var stamped := Stamp(msg, msgSize);
      Fanout(stamped, msgSize, nowMs);
    }

    /** The index of the message's channel publishes the stamped message, then its recipients get it queued. */
    method Fanout(msg: PubMessage, msgSize: nat, nowMs: int)
      requires Valid() && msg.channelType in indexes && msg.sequenceId == nextSequenceId >= 1
      modifies indexes[msg.channelType].Repr`inFlight, subscribers.Values`mailbox, subscribers.Values`connected, subscribers.Values`lastConnectionUpdateTimeMs, subscribers.Values`replies
      ensures Valid()
      ensures forall c :: c in indexes ==> indexes[c].view == old(indexes[c].view)
      ensures indexes[msg.channelType].Recorded(old(indexes[msg.channelType].InFlights()), msg, msgSize)
      ensures var index := indexes[msg.channelType];
        var recipients := if msgSize <= ToSizeT(index.limits.maxMessageSizeBytes)
                          then IndexModel.SubscriberIdsByKeyId(index.view, msg.keyId) else multiset{};
        forall t :: t in subscribers ==>
          subscribers[t].View() == AfterQueueTimes(old(subscribers[t].View()), msg, recipients[t], nowMs, Config())
    {
      ghost var index := indexes[msg.channelType];
      ghost var before := index.InFlights();
      var toAll, toKey := PublishToIndex(msg, msgSize);
      assert index.Recorded(before, msg, msgSize);
      label Published:
      DeliverBoth(msg, toAll, toKey, nowMs);
      IndexSideKept@Published();
      assert index.Recorded(before, msg, msgSize);
    }

    /** A step that changes only subscriber states, or the subscriber map, keeps the indexes and their invariant. */
    twostate lemma IndexSideKept()
      requires old(IndexesValid())
      requires unchanged(this`Entities)
      requires unchanged(indexes.Values`entities, indexes.Values`subscribersToKeyId, indexes.Values`view, indexes.Values`Repr)
      requires unchanged(Entities`subscribers, Entities`inFlight)
      ensures IndexesValid()
      ensures forall c :: c in indexes ==> indexes[c].view == old(indexes[c].view) && indexes[c].InFlights() == old(indexes[c].InFlights())
    {
      forall c | c in indexes
        ensures indexes[c].view == old(indexes[c].view) && indexes[c].InFlights() == old(indexes[c].InFlights())
      {
        assert Framed(c);
      }
    }

    /** The index of the message's channel publishes it; who is to receive it, each a known subscriber. */
    method PublishToIndex(msg: PubMessage, msgSize: nat) returns (toAll: set<SubscriberId>, toKey: set<SubscriberId>)
      requires IndexesValid() && Covered() && msg.channelType in indexes
      modifies indexes[msg.channelType].Repr`inFlight
      ensures IndexesValid()
      ensures forall c :: c in indexes ==> indexes[c].view == old(indexes[c].view)
      ensures indexes[msg.channelType].Recorded(old(indexes[msg.channelType].InFlights()), msg, msgSize)
      ensures toAll <= subscribers.Keys && toKey <= subscribers.Keys
      ensures var index := indexes[msg.channelType];
        multiset(toAll) + multiset(toKey) ==
          if msgSize <= ToSizeT(index.limits.maxMessageSizeBytes) then IndexModel.SubscriberIdsByKeyId(index.view, msg.keyId) else multiset{}
    {
      assert Named(msg.channelType);
      var index := indexes[msg.channelType];
      var _, all, key := index.Publish(msg, msgSize);
      IndexModel.KeySubsMentioned(index.view, msg.keyId);
      toAll, toKey := all, key;
    }

    /** The two deliveries of one publication: to the all-keys subscribers, then to those of the key. */
    method DeliverBoth(m: PubMessage, toAll: set<SubscriberId>, toKey: set<SubscriberId>, nowMs: int)
      requires SubscribersValid() && -0x8000_0000_0000_0000 <= publishBatchSize < 0x8000_0000_0000_0000
      requires m.sequenceId == nextSequenceId >= 1
      requires toAll <= subscribers.Keys && toKey <= subscribers.Keys
      modifies subscribers.Values`mailbox, subscribers.Values`connected, subscribers.Values`lastConnectionUpdateTimeMs, subscribers.Values`replies
      ensures SubscribersValid()
      ensures forall t :: t in subscribers ==>
        subscribers[t].View() == AfterQueueTimes(old(subscribers[t].View()), m, (multiset(toAll) + multiset(toKey))[t], nowMs, Config())
    {
      label Start:
      Deliver(m, toAll, nowMs);
      label Middle:
      Deliver(m, toKey, nowMs);
      forall t | t in subscribers
        ensures subscribers[t].View() == AfterQueueTimes(old(subscribers[t].View()), m, (multiset(toAll) + multiset(toKey))[t], nowMs, Config())
      {
        ghost var v := old(subscribers[t].View());
        assert AfterQueueTimes(v, m, 1, nowMs, Config()) == AfterQueue(v, m, true, nowMs, Config());
        assert AfterQueueTimes(v, m, 2, nowMs, Config()) == AfterQueue(AfterQueue(v, m, true, nowMs, Config()), m, true, nowMs, Config());
      }
    }

    /** `PublishFailure`: publishes a failure message for the key, which tells its subscribers the key is gone. */
    method PublishFailure(ch: ChannelType, key: KeyId, msgSize: nat, nowMs: int)
      requires Valid() && ch in indexes
      modifies this`nextSequenceId, this`cumPubMessageCnt, this`cumPubMessageBytesCnt
      modifies indexes[ch].Repr`inFlight, subscribers.Values`mailbox, subscribers.Values`connected, subscribers.Values`lastConnectionUpdateTimeMs, subscribers.Values`replies
      ensures Valid()
      ensures nextSequenceId == old(nextSequenceId) + 1
      ensures cumPubMessageCnt == Tally(old(cumPubMessageCnt), ch, 1)
      ensures cumPubMessageBytesCnt == Tally(old(cumPubMessageBytesCnt), ch, msgSize)
      ensures subscribers == old(subscribers)
      ensures forall c :: c in indexes ==> indexes[c].view == old(indexes[c].view)
      ensures indexes[ch].Recorded(old(indexes[ch].InFlights()), PubMessage(ch, key, nextSequenceId, FailureMessage), msgSize)
      ensures var recipients := if msgSize <= ToSizeT(indexes[ch].limits.maxMessageSizeBytes)
                                then IndexModel.SubscriberIdsByKeyId(indexes[ch].view, key) else multiset{};
        forall t :: t in subscribers ==>
          subscribers[t].View() == AfterQueueTimes(old(subscribers[t].View()), PubMessage(ch, key, nextSequenceId, FailureMessage), recipients[t], nowMs, Config())
    {
      Publish(PubMessage(ch, key, 0, FailureMessage), msgSize, nowMs);
    }

    /**
      `ConnectToSubscriber`: a poll from a subscriber without a state creates
      one; the state then takes the poll (acknowledgement, flush, cache, publish).
    */
    method ConnectToSubscriber(request: LongPollRequest, nowMs: int)
      requires Valid()
      modifies this`subscribers, subscribers.Values
      ensures Valid()
      ensures var sid := request.subscriberId;
        && subscribers.Keys == old(subscribers).Keys + {sid}
        && (forall t :: t in old(subscribers) ==> subscribers[t] == old(subscribers[t]))
        && (forall t :: t in old(subscribers) && t != sid ==> subscribers[t].View() == old(subscribers[t].View()))
        && (sid !in old(subscribers) ==> fresh(subscribers[sid]))
        && subscribers[sid].View() == AfterConnect(
             if sid in old(subscribers) then old(subscribers[sid].View()) else SubscriberView(false, [], nowMs, []),
             request, nowMs, Config())
    {
      EnsureSubscriber(request.subscriberId, nowMs);
      ConnectOn(request, nowMs);
    }

    /** `ConnectToSubscriber` on the state of the polling subscriber; the other states stay as they are. */
    method ConnectOn(request: LongPollRequest, nowMs: int)
      requires SubscribersValid() && -0x8000_0000_0000_0000 <= publishBatchSize < 0x8000_0000_0000_0000
      requires request.subscriberId in subscribers
      modifies subscribers[request.subscriberId]
      ensures SubscribersValid()
      ensures subscribers[request.subscriberId].View() == AfterConnect(old(subscribers[request.subscriberId].View()), request, nowMs, Config())
      ensures forall t :: t in subscribers && t != request.subscriberId ==> unchanged(subscribers[t])
    {
      var s := request.subscriberId;
      var st := subscribers[s];
      assert Known(s);
      forall t | t in subscribers && t != s ensures subscribers[t] != st {
        assert Known(t);
      }
      ghost var v := st.View();
      IdsInOrderSuffix(v.mailbox, AckedCount(v.mailbox, EffectiveAck(request, publisherId)), 1, nextSequenceId);
      ConnectLeavesOneRequest(v, request, nowMs, Config());
      st.ConnectToSubscriber(request, nowMs);
    }

    /** No index mentions `sid`. */
    ghost predicate Unmentioned(sid: SubscriberId)
      reads indexes.Values`view
    {
      forall ch {:trigger Named(ch)} :: Named(ch) && ch in indexes ==> sid !in IndexModel.Subscribers(indexes[ch].view)
    }

    /** The channels whose index has a subscription of `sid`. */
    ghost function ChannelsOf(sid: SubscriberId): set<ChannelType>
      reads indexes.Values`view
    {
      set c | c in indexes && IndexModel.HasSubscriber(indexes[c].view, sid)
    }

    /** `EraseSubscriber` on every index; how many of them had a subscription of `sid`. */
    method EraseEverywhere(sid: SubscriberId) returns (erased: nat)
      requires Valid()
      modifies indexes.Values, Entities`subscribers
      ensures Valid() && Unmentioned(sid)
      ensures forall c :: c in indexes ==> indexes[c].view == IndexModel.EraseSubscriber(old(indexes[c].view), sid).view
      ensures forall c :: c in indexes ==> indexes[c].EntitiesWithin(old(indexes[c].entities))
      ensures erased == |old(ChannelsOf(sid))|
    {
      ghost var v0 := map c | c in indexes :: indexes[c].view;
      erased := EraseFromIndexes(sid);
      forall ch | ch in indexes ensures IndexModel.Subscribers(indexes[ch].view) <= subscribers.Keys - {sid} {
        assert Named(ch);
        IndexModel.EraseSubscriberSubscribers(v0[ch], sid);
      }
    }

    /** The loop of `EraseEverywhere` over the indexes. */
    method EraseFromIndexes(sid: SubscriberId) returns (erased: nat)
      requires IndexesValid()
      modifies indexes.Values, Entities`subscribers
      ensures IndexesValid()
      ensures forall c :: c in indexes ==> indexes[c].view == IndexModel.EraseSubscriber(old(indexes[c].view), sid).view
      ensures forall c :: c in indexes ==> indexes[c].EntitiesWithin(old(indexes[c].entities))
      ensures erased == |old(ChannelsOf(sid))|
    {
      ghost var hit: set<ChannelType> := {};
      ghost var e0 := map c | c in indexes :: indexes[c].entities;
      var todo := indexes.Keys;
      erased := 0;
      while todo != {}
        invariant todo <= indexes.Keys
        invariant IndexesValid()
        invariant forall c :: c in indexes ==>
          indexes[c].view == if c in todo then old(indexes[c].view) else IndexModel.EraseSubscriber(old(indexes[c].view), sid).view
        invariant forall c :: c in hit <==> c in indexes && c !in todo && IndexModel.HasSubscriber(old(indexes[c].view), sid)
        invariant erased == |hit|
        invariant EntitiesWithin(e0)
        decreases todo
      {
        var ch :| ch in todo;
        assert Framed(ch);
        label Before:
        var existed := IndexEraseSubscriber(ch, sid);
        EntitiesWithinTrans@Before(e0);
        if existed {
          erased, hit := erased + 1, hit + {ch};
        }
        todo := todo - {ch};
      }
      assert hit == old(ChannelsOf(sid));
    }

    /** Drops the state of `sid` after flushing its cached request with an empty reply; the other states stay as they are. */
    method DropState(sid: SubscriberId, nowMs: int)
      requires SubscribersValid() && -0x8000_0000_0000_0000 <= publishBatchSize < 0x8000_0000_0000_0000
      requires sid in subscribers
      modifies this`subscribers, {subscribers[sid]}`connected, {subscribers[sid]}`lastConnectionUpdateTimeMs, {subscribers[sid]}`replies
      ensures SubscribersValid()
      ensures subscribers == old(subscribers) - {sid}
      ensures old(subscribers)[sid].View() == AfterPublish(old(subscribers[sid].View()), true, nowMs, Config())
      ensures forall t :: t in subscribers ==> unchanged(subscribers[t])
    {
      var st := subscribers[sid];
      assert Known(sid);
      forall t | t in subscribers && t != sid ensures subscribers[t] != st {
        assert Known(t);
      }
      var _ := st.PublishIfPossible(true, nowMs);
      subscribers := subscribers - {sid};
    }

    /**
      `UnregisterSubscriberInternal`: erases `sid` from every index, counting
      the indexes that had a subscription of it; then, when `sid` has a state,
      flushes its cached request with an empty reply (else the reply would
      leak) and drops the state.
    */
    method UnregisterSubscriberInternal(sid: SubscriberId, nowMs: int) returns (erased: nat)
      requires Valid()
      modifies indexes.Values, Entities`subscribers, this`subscribers, subscribers.Values
      ensures Valid()
      ensures forall c :: c in indexes ==> indexes[c].view == IndexModel.EraseSubscriber(old(indexes[c].view), sid).view
      ensures forall c :: c in indexes ==> indexes[c].EntitiesWithin(old(indexes[c].entities))
      ensures erased == |old(ChannelsOf(sid))|
      ensures subscribers == old(subscribers) - {sid}
      ensures forall t :: t in subscribers ==> subscribers[t].View() == old(subscribers[t].View())
      ensures sid in old(subscribers) ==> old(subscribers)[sid].View() == AfterPublish(old(subscribers[sid].View()), true, nowMs, Config())
    {
      erased := EraseEverywhere(sid);
      if sid in subscribers {
        label Erased:
        DropState(sid, nowMs);
        IndexSideKept@Erased();
        forall ch | ch in indexes ensures IndexModel.Subscribers(indexes[ch].view) <= subscribers.Keys {
          assert Named(ch);
        }
      }
    }

    /** `UnregisterSubscriber`: true iff some index had a subscription of `sid`. */
    method UnregisterSubscriber(sid: SubscriberId, nowMs: int) returns (erased: bool)
      requires Valid()
      modifies indexes.Values, Entities`subscribers, this`subscribers, subscribers.Values
      ensures Valid()
      ensures erased <==> exists c :: c in indexes && IndexModel.HasSubscriber(old(indexes[c].view), sid)
      ensures forall c :: c in indexes ==> indexes[c].view == IndexModel.EraseSubscriber(old(indexes[c].view), sid).view
      ensures forall c :: c in indexes ==> indexes[c].EntitiesWithin(old(indexes[c].entities))
      ensures subscribers == old(subscribers) - {sid}
      ensures forall t :: t in subscribers ==> subscribers[t].View() == old(subscribers[t].View())
      ensures sid in old(subscribers) ==> old(subscribers)[sid].View() == AfterPublish(old(subscribers[sid].View()), true, nowMs, Config())
    {
      ghost var hit := ChannelsOf(sid);
      var n := UnregisterSubscriberInternal(sid, nowMs);
      erased := n != 0;
      if erased {
        ghost var c :| c in hit;
        assert c in indexes && IndexModel.HasSubscriber(old(indexes[c].view), sid);
      } else {
        forall c | c in indexes ensures !IndexModel.HasSubscriber(old(indexes[c].view), sid) {
          assert c !in hit;
        }
      }
    }

    /**
      `UnregisterSubscriberInternal` for every subscriber in `gone`, one after
      the other: their subscriptions leave every index and their states,
      flushed, leave the publisher.
    */
    method UnregisterEach(gone: set<SubscriberId>, nowMs: int)
      requires Valid()
      modifies indexes.Values, Entities`subscribers, this`subscribers, subscribers.Values
      ensures Valid()
      ensures forall c :: c in indexes ==> indexes[c].view == IndexModel.EraseSubscribers(old(indexes[c].view), gone)
      ensures forall c :: c in indexes ==> indexes[c].EntitiesWithin(old(indexes[c].entities))
      ensures subscribers == old(subscribers) - gone
      ensures forall t :: t in subscribers ==> subscribers[t].View() == old(subscribers[t].View())
      ensures forall t :: t in old(subscribers) && t in gone ==>
        old(subscribers)[t].View() == AfterPublish(old(subscribers[t].View()), true, nowMs, Config())
    {
      ghost var v0 := map c | c in indexes :: indexes[c].view;
      ghost var u0 := subscribers;
      ghost var w0 := map t | t in subscribers :: subscribers[t].View();
      ghost var e0 := map c | c in indexes :: indexes[c].entities;
      forall c | c in indexes ensures IndexModel.EraseSubscribers(v0[c], {}) == indexes[c].view {
        assert Named(c) && Framed(c);
        IndexModel.EraseNoSubscribers(indexes[c].view);
      }
      forall t | t in u0 ensures u0[t].id == t {
        assert Known(t);
      }
      assert subscribers == u0 - {};
      var rest := gone;
      ghost var done: set<SubscriberId> := {};
      while rest != {}
        invariant Valid() && Progress(v0, u0, w0, done, nowMs)
        invariant EntitiesWithin(e0)
        invariant done <= gone && forall t :: t in gone ==> (t in done <==> t !in rest)
        decreases rest
      {
        var s :| s in rest;
        UnregisterStep(s, nowMs, v0, u0, w0, done, e0);
        done, rest := done + {s}, rest - {s};
      }
      assert done == gone;
    }

    /**
      How far `UnregisterEach` has come: the subscribers in `done` are erased
      from the indexes (`v0` their views before) and dropped from the states
      (`u0` before, with views `w0`), each after one flush.
    */
    ghost predicate Progress(v0: map<ChannelType, IndexModel.IndexView>, u0: map<SubscriberId, SubscriberState>,
                             w0: map<SubscriberId, SubscriberView>, done: set<SubscriberId>, nowMs: int)
      reads this, indexes.Values, u0.Values
    {
      && -0x8000_0000_0000_0000 <= publishBatchSize < 0x8000_0000_0000_0000
      && (forall c :: c in indexes ==> c in v0 && indexes[c].view == IndexModel.EraseSubscribers(v0[c], done))
      && subscribers == u0 - done
      && (forall t :: t in u0 ==> t in w0 && u0[t].id == t)
      && (forall t :: t in subscribers ==> subscribers[t].View() == w0[t])
      && (forall t :: t in u0 && t in done ==> u0[t].View() == AfterPublish(w0[t], true, nowMs, Config()))
    }

    /** One round of `UnregisterEach`: `s` joins the subscribers already gone. */
    method UnregisterStep(s: SubscriberId, nowMs: int, ghost v0: map<ChannelType, IndexModel.IndexView>,
                          ghost u0: map<SubscriberId, SubscriberState>, ghost w0: map<SubscriberId, SubscriberView>, ghost done: set<SubscriberId>,
                          ghost e0: map<ChannelType, map<KeyId, EntityState>>)
      requires Valid() && Progress(v0, u0, w0, done, nowMs) && s !in done
      requires EntitiesWithin(e0)
      ensures EntitiesWithin(e0)
      modifies indexes.Values, Entities`subscribers, this`subscribers, subscribers.Values
      ensures Valid() && Progress(v0, u0, w0, done + {s}, nowMs)
    {
      forall c | c in indexes ensures IndexModel.EraseSubscriber(indexes[c].view, s).view == IndexModel.EraseSubscribers(v0[c], done + {s}) {
        IndexModel.EraseSubscribersStep(v0[c], done, s);
      }
      forall t | t in u0 && t in done ensures u0[t] !in subscribers.Values {
        forall x | x in subscribers ensures subscribers[x] != u0[t] {
          assert subscribers[x] == u0[x];
        }
      }
      label Before:
      var _ := UnregisterSubscriberInternal(s, nowMs);
      assert subscribers == u0 - (done + {s});
      EntitiesWithinTrans@Before(e0);
    }

    /** Entities kept since `before` and kept again in this step are kept since `before`. */
    twostate lemma EntitiesWithinTrans(before: map<ChannelType, map<KeyId, EntityState>>)
      requires old(EntitiesWithin(before))
      requires forall c :: c in indexes ==> indexes[c].EntitiesWithin(old(indexes[c].entities))
      ensures EntitiesWithin(before)
    {
    }

    /** `UnregisterAll`: every subscriber is unregistered, so no subscription and no state is left. */
    method UnregisterAll(nowMs: int)
      requires Valid()
      modifies indexes.Values, Entities`subscribers, this`subscribers, subscribers.Values
      ensures Valid()
      ensures subscribers == map[]
      ensures forall c :: c in indexes ==> IndexModel.NoLeaks(indexes[c].view) && indexes[c].view.toAll == {}
      ensures forall c :: c in indexes ==> indexes[c].EntitiesWithin(old(indexes[c].entities))
      ensures forall t :: t in old(subscribers) ==>
        old(subscribers)[t].View() == AfterPublish(old(subscribers[t].View()), true, nowMs, Config())
    {
      UnregisterEach(subscribers.Keys, nowMs);
      forall c | c in indexes ensures IndexModel.NoLeaks(indexes[c].view) && indexes[c].view.toAll == {} {
        assert Named(c) && Framed(c);
        IndexModel.EraseEveryoneLeavesNothing(old(indexes[c].view), old(subscribers).Keys);
      }
      assert subscribers.Keys == {};
    }

    /** The subscribers `CheckDeadSubscribers` at `nowMs` deems dead. */
    ghost function DeadAt(nowMs: int): set<SubscriberId>
      requires -0x8000_0000_0000_0000 <= publishBatchSize < 0x8000_0000_0000_0000
      reads this`subscribers, subscribers.Values
    {
      set t | t in subscribers && Dead(subscribers[t].View(), nowMs, Config())
    }

    /**
      `CheckDeadSubscribers`: an inactive subscriber with a cached request gets
      an empty reply, so that it polls again; one inactive without a request is
      dead and unregistered (its state gets no reply, having no request).
    */
    method CheckDeadSubscribers(nowMs: int)
      requires Valid()
      modifies indexes.Values, Entities`subscribers, this`subscribers, subscribers.Values
      ensures Valid()
      ensures subscribers == old(subscribers) - old(DeadAt(nowMs))
      ensures forall t :: t in subscribers ==> subscribers[t].View() == AfterCheck(old(subscribers[t].View()), nowMs, Config())
      ensures forall t :: t in old(DeadAt(nowMs)) ==> old(subscribers)[t].View() == old(subscribers[t].View())
      ensures forall c :: c in indexes ==> indexes[c].view == IndexModel.EraseSubscribers(old(indexes[c].view), old(DeadAt(nowMs)))
      ensures forall c :: c in indexes ==> indexes[c].EntitiesWithin(old(indexes[c].entities))
    {
      ghost var gone := DeadAt(nowMs);
      var dead := FindDead(nowMs);
      assert dead == gone;
      UnregisterEach(dead, nowMs);
      forall t | t in gone ensures old(subscribers)[t].View() == old(subscribers[t].View()) {
        CheckKeepsDead(old(subscribers[t].View()), nowMs, Config());
      }
    }

    /** The first pass of `CheckDeadSubscribers`: every state is checked, and the dead are collected. */
    method FindDead(nowMs: int) returns (dead: set<SubscriberId>)
      requires SubscribersValid() && -0x8000_0000_0000_0000 <= publishBatchSize < 0x8000_0000_0000_0000
      modifies subscribers.Values
      ensures SubscribersValid()
      ensures forall t :: t in subscribers ==> subscribers[t].View() == AfterCheck(old(subscribers[t].View()), nowMs, Config())
      ensures forall t :: t in dead <==> t in subscribers && Dead(old(subscribers[t].View()), nowMs, Config())
    {
      dead := {};
      var todo := subscribers.Keys;
      while todo != {}
        invariant todo <= subscribers.Keys
        invariant SubscribersValid()
        invariant forall t :: t in subscribers ==>
          subscribers[t].View() == if t in todo then old(subscribers[t].View()) else AfterCheck(old(subscribers[t].View()), nowMs, Config())
        invariant forall t :: t in dead <==> t in subscribers && t !in todo && Dead(old(subscribers[t].View()), nowMs, Config())
        decreases todo
      {
        var s :| s in todo;
        var isDead := CheckOn(s, nowMs);
        if isDead {
          dead := dead + {s};
        }
        todo := todo - {s};
      }
    }

    /** The first pass of `CheckDeadSubscribers` on the state of `s`; true iff it is dead. The other states stay as they are. */
    method CheckOn(s: SubscriberId, nowMs: int) returns (isDead: bool)
      requires SubscribersValid() && -0x8000_0000_0000_0000 <= publishBatchSize < 0x8000_0000_0000_0000
      requires s in subscribers
      modifies subscribers[s]
      ensures SubscribersValid()
      ensures isDead == Dead(old(subscribers[s].View()), nowMs, Config())
      ensures subscribers[s].View() == AfterCheck(old(subscribers[s].View()), nowMs, Config())
      ensures forall t :: t in subscribers && t != s ==> unchanged(subscribers[t])
    {
      var st := subscribers[s];
      assert Known(s);
      forall t | t in subscribers && t != s ensures subscribers[t] != st {
        assert Known(t);
      }
      var disconnected := !st.ConnectionExists();
      var timedOut := !st.IsActive(nowMs);
      isDead := disconnected && timedOut;
      if !isDead && timedOut {
        var _ := st.PublishIfPossible(true, nowMs);
      }
    }

    /** `CheckNoLeaks`: true iff no index keeps an entity or a reverse entry and no subscriber state is left. */
    method CheckNoLeaks() returns (b: bool)
      requires Valid()
      ensures b <==> (forall c :: c in indexes ==> IndexModel.NoLeaks(indexes[c].view)) && subscribers == map[]
    {
      var todo := indexes.Keys;
      while todo != {}
        invariant todo <= indexes.Keys
        invariant forall c :: c in indexes && c !in todo ==> IndexModel.NoLeaks(indexes[c].view)
        decreases todo
      {
        var ch :| ch in todo;
        assert Named(ch) && Framed(ch);
        var ok := indexes[ch].CheckNoLeaks();
        if !ok {
          return false;
        }
        todo := todo - {ch};
      }
      b := subscribers == map[];
    }
  }
}
