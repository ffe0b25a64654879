/**
  `SubscriptionIndex` of `src/ray/pubsub/publisher.h`: the per-channel two-way
  index, holding one `EntityState` for the subscribers of every key and one per
  explicitly subscribed key. Every method is proved against the matching
  function of `IndexModel` through the ghost field `view`.
*/
module SubscriptionIndexes {
  import opened PubsubTypes
  import IndexModel
  import opened EntityStates

  /** The byte limits every entity of a channel is created with (`CreateEntityState`). */
  datatype EntityLimits = EntityLimits(maxMessageSizeBytes: int, maxBufferedBytes: int) {
    predicate InRange() {
      && -0x8000_0000_0000_0000 <= maxMessageSizeBytes < 0x8000_0000_0000_0000
      && -0x8000_0000_0000_0000 <= maxBufferedBytes < 0x8000_0000_0000_0000
    }
  }

  /** Limits that fit the `int64_t` configuration values they come from. */
  type Limits = l: EntityLimits | l.InRange() witness EntityLimits(0, 0)

  /** Set bookkeeping for a loop that moves `k` from `rest` to the keys done. */
  lemma MoveOne<T>(keys: set<T>, rest: set<T>, k: T)
    requires rest <= keys
    ensures k in rest ==> keys - rest + {k} == keys - (rest - {k})
    ensures rest == {} ==> keys - rest == keys
  {
  }

  class SubscriptionIndex {
    const channelType: ChannelType
    const limits: Limits
    const subscribersToAll: EntityState
    var entities: map<KeyId, EntityState>
    var subscribersToKeyId: map<SubscriberId, set<KeyId>>
    /** The index as a value. */
    ghost var view: IndexModel.IndexView
    /** The entity states this index has created, all tagged with its channel; erased ones may stay. */
    ghost var Repr: set<EntityState>

    /** One entity of this channel carrying the channel's limits. */
    ghost predicate EntityOk(e: EntityState, key: KeyId)
    {
      && e.channel == channelType && e.key == key
      && e.maxMessageSizeBytes == ToSizeT(limits.maxMessageSizeBytes)
      && e.maxBufferedBytes == limits.maxBufferedBytes
    }

    /** The entities hold exactly the key -> subscribers side `m`, one valid entity per key. */
    ghost predicate Mirrors(m: map<KeyId, set<SubscriberId>>)
      reads this`entities, this`Repr, Repr`subscribers
    {
      && entities.Keys == m.Keys
      && (forall k :: k in entities ==> entities[k] in Repr && EntityOk(entities[k], k) && entities[k].subscribers == m[k])
    }

    /** The in-flight records of every entity keep that entity's byte caps. */
    ghost predicate Buffered()
      reads this`Repr, Repr`inFlight
    {
      forall e {:trigger e.WithinLimits()} :: e in Repr ==> e.WithinLimits()
    }

    ghost predicate Valid()
      reads this`entities, this`subscribersToKeyId, this`view, this`Repr, Repr`subscribers, Repr`inFlight
    {
      && subscribersToAll in Repr
      && (forall e :: e in Repr ==> e.channel == channelType)
      && Buffered()
      && EntityOk(subscribersToAll, AllKeys)
      && view.toAll == subscribersToAll.subscribers
      && Mirrors(view.keySubscribers)
      && view.subscribedKeys == subscribersToKeyId
      && IndexModel.Consistent(view)
    }

    constructor (channelType: ChannelType, limits: Limits)
      ensures Valid() && fresh(Repr)
      ensures this.channelType == channelType && this.limits == limits
      ensures view == IndexModel.EmptyIndex
    {
      this.channelType := channelType;
      this.limits := limits;
      subscribersToAll := new EntityState(channelType, AllKeys, limits.maxMessageSizeBytes, limits.maxBufferedBytes);
      entities := map[];
      subscribersToKeyId := map[];
      view := IndexModel.EmptyIndex;
      Repr := {subscribersToAll};
    }

    /** Every key that had an entity in `before` and still has one keeps that same entity object. */
    ghost predicate KeepsEntities(before: map<KeyId, EntityState>)
      reads this`entities
    {
      forall k :: k in before && k in entities ==> entities[k] == before[k]
    }

    /** Every key entity is the one that key had in `before`: no entity was created or replaced. */
    ghost predicate EntitiesWithin(before: map<KeyId, EntityState>)
      reads this`entities
    {
      forall k :: k in entities ==> k in before && entities[k] == before[k]
    }

    /** Adds `s` to the entity of `key`, creating the entity when the key has none. */
    method AddToEntity(key: KeyId, s: SubscriberId, ghost m: map<KeyId, set<SubscriberId>>) returns (added: bool)
      requires key != AllKeys && AllKeys !in m && Mirrors(m) && subscribersToAll.key == AllKeys
      requires (forall e :: e in Repr ==> e.channel == channelType) && Buffered()
      modifies this`entities, this`Repr, Repr`subscribers
      ensures Buffered()
      ensures Mirrors(m[key := IndexModel.KeySubsOf(m, key) + {s}])
      ensures old(Repr) <= Repr && (forall e :: e in Repr ==> e.channel == channelType)
      ensures added == (s !in IndexModel.KeySubsOf(m, key))
      ensures subscribersToAll.subscribers == old(subscribersToAll.subscribers)
      ensures key in entities && entities == old(entities)[key := entities[key]]
      ensures key in old(entities) ==> entities[key] == old(entities[key])
      ensures key !in old(entities) ==> fresh(entities[key]) && entities[key].inFlight == InFlight([], [], 0)
    {
      var e := EntityFor(key, m);
      ghost var m1 := m[key := IndexModel.KeySubsOf(m, key)];
      ghost var m2 := m[key := IndexModel.KeySubsOf(m, key) + {s}];
      label Found:
      added := e.AddSubscriber(s);
      forall k | k in entities
        ensures entities[k] in Repr && EntityOk(entities[k], k) && entities[k].subscribers == m2[k]
      {
        assert old@Found(entities[k] in Repr && EntityOk(entities[k], k) && entities[k].subscribers == m1[k]);
      }
    }

    /** The entity of `key`, created empty when the key has none. */
    method EntityFor(key: KeyId, ghost m: map<KeyId, set<SubscriberId>>) returns (e: EntityState)
      requires key != AllKeys && Mirrors(m) && Buffered()
      requires (forall e :: e in Repr ==> e.channel == channelType)
      modifies this`entities, this`Repr
      ensures Buffered()
      ensures key in entities && entities[key] == e && e.key == key && (e in old(Repr) || fresh(e))
      ensures entities == old(entities)[key := e]
      ensures key in old(entities) ==> e == old(entities[key])
      ensures key !in old(entities) ==> fresh(e) && e.inFlight == InFlight([], [], 0)
      ensures Mirrors(m[key := IndexModel.KeySubsOf(m, key)])
      ensures old(Repr) <= Repr && (forall e :: e in Repr ==> e.channel == channelType)
    {
      if key in entities {
        e := entities[key];
        assert m[key := IndexModel.KeySubsOf(m, key)] == m;
      } else {
        e := new EntityState(channelType, key, limits.maxMessageSizeBytes, limits.maxBufferedBytes);
        entities, Repr := entities[key := e], Repr + {e};
      }
    }

    /** Removes `s` from the entity of `key`, erasing the entity when it empties. */
    method RemoveFromEntity(key: KeyId, s: SubscriberId, ghost m: map<KeyId, set<SubscriberId>>)
      requires key in m && s in m[key] && AllKeys !in m && Mirrors(m) && subscribersToAll.key == AllKeys
      modifies this`entities, Repr`subscribers
      ensures Mirrors(if m[key] - {s} == {} then m - {key} else m[key := m[key] - {s}])
      ensures subscribersToAll.subscribers == old(subscribersToAll.subscribers)
      ensures EntitiesWithin(old(entities))
    {
      var e := entities[key];
      var removed := e.RemoveSubscriber(s);
      assert removed;
      if e.subscribers == {} {
        entities := entities - {key};
      }
      forall k | k in entities && k != key
        ensures entities[k] == old(entities[k]) && entities[k] != e
      {
      }
    }

    /** `AddEntry`: the empty key subscribes to all keys; true iff the pair is new. */
    method AddEntry(key: KeyId, s: SubscriberId) returns (added: bool)
      requires Valid()
      modifies this, Repr`subscribers
      ensures Valid() && old(Repr) <= Repr
      ensures IndexModel.Update(view, added) == IndexModel.AddEntry(old(view), key, s)
      ensures KeepsEntities(old(entities)) && old(entities).Keys <= entities.Keys
      ensures forall k :: k in entities && k !in old(entities) ==> fresh(entities[k]) && entities[k].inFlight == InFlight([], [], 0)
      ensures unchanged(old(Repr)`inFlight)
    {
      if key == AllKeys {
        added := AddToAll(s);
      } else {
        added := AddToKey(key, s);
      }
    }

    method AddToAll(s: SubscriberId) returns (added: bool)
      requires Valid()
      modifies this`view, subscribersToAll`subscribers
      ensures Valid()
      ensures IndexModel.Update(view, added) == IndexModel.AddEntry(old(view), AllKeys, s)
    {
      ghost var v0 := view;
      IndexModel.AddEntryConsistent(v0, AllKeys, s);
      added := subscribersToAll.AddSubscriber(s);
      assert forall k :: k in entities ==> entities[k] != subscribersToAll;
      view := IndexModel.AddEntry(v0, AllKeys, s).view;
    }

    method AddToKey(key: KeyId, s: SubscriberId) returns (added: bool)
      requires Valid() && key != AllKeys
      modifies this, Repr`subscribers
      ensures Valid() && old(Repr) <= Repr
      ensures IndexModel.Update(view, added) == IndexModel.AddEntry(old(view), key, s)
      ensures key in entities && entities == old(entities)[key := entities[key]]
      ensures key in old(entities) ==> entities[key] == old(entities[key])
      ensures key !in old(entities) ==> fresh(entities[key]) && entities[key].inFlight == InFlight([], [], 0)
    {
      ghost var v0 := view;
      IndexModel.AddEntryShape(v0, key, s);
      var keys := if s in subscribersToKeyId then subscribersToKeyId[s] else {};
      added := key !in keys;
      subscribersToKeyId, view := subscribersToKeyId[s := keys + {key}], IndexModel.AddEntry(v0, key, s).view;
      var subscriberAdded := AddToEntity(key, s, v0.keySubscribers);
      // Both sides of the index agree on whether the pair is new.
      assert subscriberAdded == added;
    }

    /** `EraseEntry`: the empty key erases an all-keys subscription; true iff the pair existed. */
    method EraseEntry(key: KeyId, s: SubscriberId) returns (erased: bool)
      requires Valid()
      modifies this, Repr`subscribers
      ensures Valid() && Repr == old(Repr)
      ensures IndexModel.Update(view, erased) == IndexModel.EraseEntry(old(view), key, s)
      ensures EntitiesWithin(old(entities))
      ensures unchanged(old(Repr)`inFlight)
    {
      if key == AllKeys {
        erased := EraseFromAll(s);
      } else {
        erased := EraseFromKey(key, s);
      }
    }

    method EraseFromAll(s: SubscriberId) returns (erased: bool)
      requires Valid()
      modifies this`view, subscribersToAll`subscribers
      ensures Valid()
      ensures IndexModel.Update(view, erased) == IndexModel.EraseEntry(old(view), AllKeys, s)
    {
      ghost var v0 := view;
      IndexModel.EraseEntryConsistent(v0, AllKeys, s);
      erased := subscribersToAll.RemoveSubscriber(s);
      assert forall k :: k in entities ==> entities[k] != subscribersToAll;
      view := IndexModel.EraseEntry(v0, AllKeys, s).view;
    }

    method EraseFromKey(key: KeyId, s: SubscriberId) returns (erased: bool)
      requires Valid() && key != AllKeys
      modifies this`subscribersToKeyId, this`entities, this`view, Repr`subscribers
      ensures Valid()
      ensures IndexModel.Update(view, erased) == IndexModel.EraseEntry(old(view), key, s)
      ensures EntitiesWithin(old(entities))
    {
      if s !in subscribersToKeyId || key !in subscribersToKeyId[s] {
        erased := false;
        return;
      }
      ghost var v0 := view;
      IndexModel.EraseEntryShape(v0, key, s);
      var keys := subscribersToKeyId[s] - {key};
      subscribersToKeyId, view := if keys == {} then subscribersToKeyId - {s} else subscribersToKeyId[s := keys], IndexModel.EraseEntry(v0, key, s).view;
      RemoveFromEntity(key, s, v0.keySubscribers);
      erased := true;
    }

    /** `EraseSubscriber`: remove every subscription of `s`; true iff it had one. */
    method EraseSubscriber(s: SubscriberId) returns (existed: bool)
      requires Valid()
      modifies this, Repr`subscribers
      ensures Valid() && Repr == old(Repr)
      ensures IndexModel.Update(view, existed) == IndexModel.EraseSubscriber(old(view), s)
      ensures EntitiesWithin(old(entities))
      ensures unchanged(old(Repr)`inFlight)
    {
      ghost var v0 := view;
      var inAll := EraseFromAll(s);
      ghost var v1 := view;
      var hasKeys := EraseKeysOf(s);
      assert IndexModel.EraseSubscriber(v1, s).view == IndexModel.EraseSubscriber(v0, s).view;
      existed := inAll || hasKeys;
    }

    /** Takes `s`, which subscribes to no key as a whole, out of every key it subscribes to. */
    method EraseKeysOf(s: SubscriberId) returns (hadKeys: bool)
      requires Valid() && s !in view.toAll
      modifies this, Repr`subscribers
      ensures Valid() && Repr == old(Repr)
      ensures view == IndexModel.EraseSubscriber(old(view), s).view
      ensures hadKeys == (s in old(view).subscribedKeys)
      ensures EntitiesWithin(old(entities))
    {
      ghost var v0 := view;
      IndexModel.EraseKeysShape(v0, s);
      hadKeys := s in subscribersToKeyId;
      var keys := if hadKeys then subscribersToKeyId[s] else {};
      subscribersToKeyId, view := subscribersToKeyId - {s}, IndexModel.EraseSubscriber(v0, s).view;
      RemoveFromKeys(s, keys, v0.keySubscribers);
    }

    /** Removes `s` from the entity of every key in `keys`, erasing the entities that empty. */
    method RemoveFromKeys(s: SubscriberId, keys: set<KeyId>, ghost m0: map<KeyId, set<SubscriberId>>)
      requires AllKeys !in m0 && Mirrors(m0) && subscribersToAll.key == AllKeys
      requires forall k :: k in keys ==> k in m0 && s in m0[k]
      modifies this`entities, Repr`subscribers
      ensures Mirrors(IndexModel.PartlyWithout(m0, s, keys))
      ensures subscribersToAll.subscribers == old(subscribersToAll.subscribers)
      ensures EntitiesWithin(old(entities))
    {
      var rest := keys;
      ghost var m := m0;
      IndexModel.PartlyWithoutNone(m0, s);
      while rest != {}
        invariant rest <= keys
        invariant m == IndexModel.PartlyWithout(m0, s, keys - rest)
        invariant Mirrors(m) && AllKeys !in m
        invariant subscribersToAll.subscribers == old(subscribersToAll.subscribers)
        invariant EntitiesWithin(old(entities))
        decreases rest
      {
        var k :| k in rest;
        IndexModel.PartlyWithoutStep(m0, s, keys - rest, k);
        RemoveFromEntity(k, s, m);
        m := if m0[k] - {s} == {} then m - {k} else m[k := m0[k] - {s}];
        MoveOne(keys, rest, k);
        rest := rest - {k};
      }
      MoveOne(keys, rest, AllKeys);
    }

    /** The in-flight record of every entity of this index. */
    ghost function InFlights(): (r: map<EntityState, Pending>)
      reads this`Repr, Repr`inFlight
      ensures r.Keys == Repr
      ensures forall e :: e in Repr ==> r[e] == e.inFlight
    {
      map e | e in Repr :: e.inFlight
    }

    /**
      The in-flight records after a publication of `msg` of `msgSize` bytes,
      given those before it: the all-keys entity, when it has subscribers, and
      the entity of the message's key each record the message as
      `EvictAndAppend` says if it fits the per-message cap; every other entity,
      and each of those two when the message does not fit, keeps its record.
    */
    ghost predicate Recorded(before: map<EntityState, Pending>, msg: PubMessage, msgSize: nat)
      reads this`entities, this`subscribersToKeyId, this`view, this`Repr, Repr`inFlight
    {
      && before.Keys == Repr
      && forall e {:trigger e.inFlight} :: e in Repr ==>
          e.inFlight == if msgSize <= ToSizeT(limits.maxMessageSizeBytes)
                           && ((e == subscribersToAll && view.toAll != {}) || (msg.keyId in entities && e == entities[msg.keyId]))
                        then EvictAndAppend(before[e], msg, msgSize, limits.maxBufferedBytes)
                        else before[e]
    }

    /**
      `Publish`: the all-keys entity and the message key's entity each publish
      the message. The result says whether any of them has subscribers, and
      which subscribers of each are to receive the message: none when it
      exceeds the per-message cap.
    */
    method Publish(msg: PubMessage, msgSize: nat) returns (any: bool, toAll: set<SubscriberId>, toKey: set<SubscriberId>)
      requires Valid()
      modifies Repr`inFlight
      ensures Valid() && view == old(view) && entities == old(entities)
      ensures Recorded(old(InFlights()), msg, msgSize)
      ensures any == (view.toAll != {} || IndexModel.HasKeyId(view, msg.keyId))
      ensures toAll == if msgSize <= ToSizeT(limits.maxMessageSizeBytes) then view.toAll else {}
      ensures toKey == if msgSize <= ToSizeT(limits.maxMessageSizeBytes) then IndexModel.KeySubs(view, msg.keyId) else {}
    {
      var hasAll, deliverAll := subscribersToAll.Publish(msg, msgSize);
      any := hasAll;
      toAll := if deliverAll then subscribersToAll.subscribers else {};
      toKey := {};
      if msg.keyId in entities {
        var e := entities[msg.keyId];
        var hasKey, deliverKey := e.Publish(msg, msgSize);
        any := any || hasKey;
        if deliverKey {
          toKey := e.subscribers;
        }
      }
    }

    /** `HasKeyId`: only explicitly subscribed keys count. */
    function HasKeyId(key: KeyId): (b: bool)
      reads this`entities, this`subscribersToKeyId, this`view, this`Repr, Repr`subscribers, Repr`inFlight
      requires Valid()
      ensures b == IndexModel.HasKeyId(view, key)
    {
      key in entities
    }

    /** `HasSubscriber`: an all-keys subscriber or one with at least one key. */
    function HasSubscriber(s: SubscriberId): (b: bool)
      reads this`entities, this`subscribersToKeyId, this`view, this`Repr, Repr`subscribers, Repr`inFlight
      requires Valid()
      ensures b == IndexModel.HasSubscriber(view, s)
    {
      s in subscribersToAll.subscribers || (s in subscribersToKeyId && subscribersToKeyId[s] != {})
    }

    /** `GetSubscriberIdsByKeyId`. */
    function SubscriberIdsByKeyId(key: KeyId): (ids: multiset<SubscriberId>)
      reads this`entities, this`subscribersToKeyId, this`view, this`Repr, Repr`subscribers, Repr`inFlight
      requires Valid()
      ensures ids == IndexModel.SubscriberIdsByKeyId(view, key)
    {
      multiset(subscribersToAll.subscribers) + if key in entities then multiset(entities[key].subscribers) else multiset{}
    }

    /** `CheckNoLeaks`: no entity and no reverse entry remains. */
    function CheckNoLeaks(): (b: bool)
      reads this`entities, this`subscribersToKeyId, this`view, this`Repr, Repr`subscribers, Repr`inFlight
      requires Valid()
      ensures b == IndexModel.NoLeaks(view)
    {
      entities == map[] && subscribersToKeyId == map[]
    }
  }
}
