/**
  The per-channel two-way subscription index of `publisher.h` as a value:
  subscribers to every key, key -> subscribers (`entities_`) and the reverse
  index subscriber -> keys (`subscribers_to_key_id_`), with the operations on
  it as functions. `SubscriptionIndex` (the class) is proved against these.
*/
module IndexModel {
  import opened PubsubTypes

  datatype IndexView = IndexView(
    toAll: set<SubscriberId>,
    keySubscribers: map<KeyId, set<SubscriberId>>,
    subscribedKeys: map<SubscriberId, set<KeyId>>)

  /** The result of an update: the new index and the boolean the source returns. */
  datatype Update = Update(view: IndexView, changed: bool)

  const EmptyIndex := IndexView({}, map[], map[])

  /** Subscribers of an explicitly subscribed key. */
  function KeySubs(v: IndexView, key: KeyId): set<SubscriberId> {
    KeySubsOf(v.keySubscribers, key)
  }

  /** Subscribers a key -> subscribers map lists under `key`. */
  function KeySubsOf(m: map<KeyId, set<SubscriberId>>, key: KeyId): set<SubscriberId> {
    if key in m then m[key] else {}
  }

  /** Keys a subscriber is explicitly subscribed to. */
  function KeysOf(v: IndexView, s: SubscriberId): set<KeyId> {
    if s in v.subscribedKeys then v.subscribedKeys[s] else {}
  }

  /** `s` is listed under `key` in the key -> subscribers side. */
  predicate Listed(v: IndexView, key: KeyId, s: SubscriberId) {
    key in v.keySubscribers && s in v.keySubscribers[key]
  }

  /** `key` is listed under `s` in the reverse index. */
  predicate ReverseListed(v: IndexView, s: SubscriberId, key: KeyId) {
    s in v.subscribedKeys && key in v.subscribedKeys[s]
  }

  /**
    The index invariant: the two sides agree pair by pair, no entry is left
    empty (the source erases an entity or a reverse entry when it empties), and
    the empty key, which means "all keys", never appears as an explicit key.
  */
  ghost predicate Consistent(v: IndexView) {
    && AllKeys !in v.keySubscribers
    && (forall k :: k in v.keySubscribers ==> v.keySubscribers[k] != {})
    && (forall s :: s in v.subscribedKeys ==> v.subscribedKeys[s] != {})
    && (forall k, s :: Listed(v, k, s) ==> ReverseListed(v, s, k))
    && (forall s, k :: ReverseListed(v, s, k) ==> Listed(v, k, s))
  }

  /** `HasKeyId`: only explicitly subscribed keys count. */
  predicate HasKeyId(v: IndexView, key: KeyId) {
    key in v.keySubscribers
  }

  /** `HasSubscriber`: an all-keys subscriber or one with at least one key. */
  predicate HasSubscriber(v: IndexView, s: SubscriberId) {
    s in v.toAll || (s in v.subscribedKeys && v.subscribedKeys[s] != {})
  }

  /** Every subscriber the index mentions. */
  function Subscribers(v: IndexView): set<SubscriberId> {
    v.toAll + v.subscribedKeys.Keys
  }

  /** `CheckNoLeaks`: no entity and no reverse entry is left. */
  predicate NoLeaks(v: IndexView) {
    v.keySubscribers == map[] && v.subscribedKeys == map[]
  }

  /** `AddEntry(key_id, subscriber)`; the empty key subscribes to all keys. */
  function AddEntry(v: IndexView, key: KeyId, s: SubscriberId): Update {
    if key == AllKeys then
      Update(v.(toAll := v.toAll + {s}), s !in v.toAll)
    else
      Update(IndexView(v.toAll,
                       v.keySubscribers[key := KeySubs(v, key) + {s}],
                       v.subscribedKeys[s := KeysOf(v, s) + {key}]),
             key !in KeysOf(v, s))
  }

  /** `EraseEntry(key_id, subscriber_id)`; the empty key erases an all-keys subscription. */
  function EraseEntry(v: IndexView, key: KeyId, s: SubscriberId): Update {
    if key == AllKeys then
      Update(v.(toAll := v.toAll - {s}), s in v.toAll)
    else if key !in KeysOf(v, s) then
      Update(v, false)
    else
      var keys := KeysOf(v, s) - {key};
      var subs := KeySubs(v, key) - {s};
      Update(IndexView(v.toAll,
                       if subs == {} then v.keySubscribers - {key} else v.keySubscribers[key := subs],
                       if keys == {} then v.subscribedKeys - {s} else v.subscribedKeys[s := keys]),
             true)
  }

  /** The key -> subscribers side with `s` taken out of every key, empty keys erased. */
  function WithoutSubscriber(m: map<KeyId, set<SubscriberId>>, s: SubscriberId): map<KeyId, set<SubscriberId>> {
    map k | k in m && m[k] - {s} != {} :: m[k] - {s}
  }

  /** `EraseSubscriber(subscriber_id)`: remove every subscription of `s`; report whether it had one. */
  function EraseSubscriber(v: IndexView, s: SubscriberId): Update {
    Update(IndexView(v.toAll - {s}, WithoutSubscriber(v.keySubscribers, s), v.subscribedKeys - {s}),
           HasSubscriber(v, s))
  }

  /** `GetSubscriberIdsByKeyId`: the all-keys subscribers followed by the key's own (order unspecified). */
  function SubscriberIdsByKeyId(v: IndexView, key: KeyId): multiset<SubscriberId> {
    multiset(v.toAll) + multiset(KeySubs(v, key))
  }

  /** The key -> subscribers side after `s` was taken out of the keys in `done` only. */
  function PartlyWithout(m: map<KeyId, set<SubscriberId>>, s: SubscriberId, done: set<KeyId>): map<KeyId, set<SubscriberId>> {
    map k | k in m && (k in done ==> m[k] - {s} != {}) :: if k in done then m[k] - {s} else m[k]
  }

  /** Nothing taken out yet. */
  lemma PartlyWithoutNone(m: map<KeyId, set<SubscriberId>>, s: SubscriberId)
    ensures PartlyWithout(m, s, {}) == m
  {
  }

  /** Taking `s` out of one more key `k`, which still holds its original subscribers. */
  lemma PartlyWithoutStep(m: map<KeyId, set<SubscriberId>>, s: SubscriberId, done: set<KeyId>, k: KeyId)
    requires k in m && k !in done
    ensures k in PartlyWithout(m, s, done) && PartlyWithout(m, s, done)[k] == m[k]
    ensures var p := PartlyWithout(m, s, done);
      PartlyWithout(m, s, done + {k}) == if m[k] - {s} == {} then p - {k} else p[k := m[k] - {s}]
  {
  }

  /** Taking `s` out of the keys it is subscribed to takes it out everywhere. */
  lemma PartlyWithoutComplete(v: IndexView, s: SubscriberId)
    requires Consistent(v)
    ensures PartlyWithout(v.keySubscribers, s, KeysOf(v, s)) == WithoutSubscriber(v.keySubscribers, s)
  {
    var m := v.keySubscribers;
    forall k | k in m && k !in KeysOf(v, s)
      ensures m[k] - {s} == m[k] && m[k] != {}
    {
      if s in m[k] {
        assert Listed(v, k, s);
      }
    }
  }

  // ---------------------------------------------------------------------
  // Lemmas
  // ---------------------------------------------------------------------

  lemma EmptyIndexConsistent()
    ensures Consistent(EmptyIndex) && NoLeaks(EmptyIndex)
  {
  }

  /** The invariant does not depend on the all-keys set. */
  lemma ToAllIrrelevant(v: IndexView, all: set<SubscriberId>)
    requires Consistent(v)
    ensures Consistent(v.(toAll := all))
  {
    var w := v.(toAll := all);
    forall k, t | Listed(w, k, t) ensures ReverseListed(w, t, k) {
      assert Listed(v, k, t);
    }
    forall t, k | ReverseListed(w, t, k) ensures Listed(w, k, t) {
      assert ReverseListed(v, t, k);
    }
  }

  /** `AddEntry` keeps the index invariant. */
  lemma AddEntryConsistent(v: IndexView, key: KeyId, s: SubscriberId)
    requires Consistent(v)
    ensures Consistent(AddEntry(v, key, s).view)
  {
    var w := AddEntry(v, key, s).view;
    if key != AllKeys {
      forall k, t | Listed(w, k, t) ensures ReverseListed(w, t, k) {
        if !(k == key && t == s) {
          assert Listed(v, k, t);
        }
      }
      forall t, k | ReverseListed(w, t, k) ensures Listed(w, k, t) {
        if !(k == key && t == s) {
          assert ReverseListed(v, t, k);
        }
      }
    } else {
      ToAllIrrelevant(v, v.toAll + {s});
    }
  }

  /** The returned flag says whether the pair was new; the two sides agree on it, which the model takes as the contract of `AddEntry`. */
  lemma AddEntryResult(v: IndexView, key: KeyId, s: SubscriberId)
    requires Consistent(v)
    ensures key == AllKeys ==> AddEntry(v, key, s).changed == (s !in v.toAll)
    ensures key != AllKeys ==> AddEntry(v, key, s).changed == !Listed(v, key, s)
    ensures key != AllKeys ==> AddEntry(v, key, s).changed == !ReverseListed(v, s, key)
  {
  }

  /** `AddEntry` is idempotent: adding an existing pair changes nothing and returns false. */
  lemma AddEntryIdempotent(v: IndexView, key: KeyId, s: SubscriberId)
    requires Consistent(v)
    ensures var w := AddEntry(v, key, s).view; AddEntry(w, key, s) == Update(w, false)
    ensures !AddEntry(v, key, s).changed ==> AddEntry(v, key, s).view == v
  {
    var u := AddEntry(v, key, s);
    if key != AllKeys && !u.changed {
      assert ReverseListed(v, s, key);
      assert Listed(v, key, s);
      assert KeySubs(v, key) + {s} == v.keySubscribers[key];
      assert KeysOf(v, s) + {key} == v.subscribedKeys[s];
      assert v.keySubscribers[key := KeySubs(v, key) + {s}] == v.keySubscribers;
      assert v.subscribedKeys[s := KeysOf(v, s) + {key}] == v.subscribedKeys;
    }
    if key == AllKeys && !u.changed {
      assert v.toAll + {s} == v.toAll;
    }
  }

  /** After `AddEntry`, the subscriber is present, and `HasKeyId` holds exactly for explicit keys. */
  lemma AddEntryQueries(v: IndexView, key: KeyId, s: SubscriberId, k: KeyId)
    ensures HasSubscriber(AddEntry(v, key, s).view, s)
    ensures key == AllKeys ==> (HasKeyId(AddEntry(v, key, s).view, k) <==> HasKeyId(v, k))
    ensures key != AllKeys ==> (HasKeyId(AddEntry(v, key, s).view, k) <==> HasKeyId(v, k) || k == key)
  {
  }

  /** `EraseEntry` keeps the index invariant. */
  lemma EraseEntryConsistent(v: IndexView, key: KeyId, s: SubscriberId)
    requires Consistent(v)
    ensures Consistent(EraseEntry(v, key, s).view)
  {
    var w := EraseEntry(v, key, s).view;
    if key != AllKeys && key in KeysOf(v, s) {
      assert Listed(v, key, s);
      forall k, t | Listed(w, k, t) ensures ReverseListed(w, t, k) {
        assert Listed(v, k, t);
        if t == s {
          assert k in KeysOf(v, s) - {key};
        }
      }
      forall t, k | ReverseListed(w, t, k) ensures Listed(w, k, t) {
        assert ReverseListed(v, t, k);
        if k == key {
          assert t in KeySubs(v, key) - {s};
        }
      }
    } else if key == AllKeys {
      ToAllIrrelevant(v, v.toAll - {s});
    }
  }

  /** The index after adding an explicit pair, side by side; the two sides agree on whether the pair is new. */
  lemma AddEntryShape(v: IndexView, key: KeyId, s: SubscriberId)
    requires Consistent(v) && key != AllKeys
    ensures AddEntry(v, key, s) == Update(IndexView(v.toAll,
      v.keySubscribers[key := KeySubsOf(v.keySubscribers, key) + {s}],
      v.subscribedKeys[s := KeysOf(v, s) + {key}]), key !in KeysOf(v, s))
    ensures Consistent(AddEntry(v, key, s).view)
    ensures (key !in KeysOf(v, s)) == (s !in KeySubsOf(v.keySubscribers, key))
  {
    AddEntryConsistent(v, key, s);
    assert ReverseListed(v, s, key) <==> Listed(v, key, s);
  }

  /** The index after taking a subscriber with no all-keys subscription out of all its keys. */
  lemma EraseKeysShape(v: IndexView, s: SubscriberId)
    requires Consistent(v) && s !in v.toAll
    ensures EraseSubscriber(v, s).view == IndexView(v.toAll, PartlyWithout(v.keySubscribers, s, KeysOf(v, s)), v.subscribedKeys - {s})
    ensures Consistent(EraseSubscriber(v, s).view)
    ensures forall k :: k in KeysOf(v, s) ==> k in v.keySubscribers && s in v.keySubscribers[k]
  {
    EraseSubscriberConsistent(v, s);
    PartlyWithoutComplete(v, s);
    assert v.toAll - {s} == v.toAll;
    forall k | k in KeysOf(v, s) ensures k in v.keySubscribers && s in v.keySubscribers[k] {
      assert ReverseListed(v, s, k);
    }
  }

  /** The index after erasing an existing explicit pair, written out side by side. */
  lemma EraseEntryShape(v: IndexView, key: KeyId, s: SubscriberId)
    requires Consistent(v) && key != AllKeys && ReverseListed(v, s, key)
    ensures key in v.keySubscribers && s in v.keySubscribers[key]
    ensures EraseEntry(v, key, s) == Update(IndexView(v.toAll,
      if v.keySubscribers[key] - {s} == {} then v.keySubscribers - {key} else v.keySubscribers[key := v.keySubscribers[key] - {s}],
      if v.subscribedKeys[s] - {key} == {} then v.subscribedKeys - {s} else v.subscribedKeys[s := v.subscribedKeys[s] - {key}]), true)
    ensures Consistent(EraseEntry(v, key, s).view)
  {
    EraseEntryConsistent(v, key, s);
  }

  /** `EraseEntry` returns whether the pair existed, and the pair is gone afterwards. */
  lemma EraseEntryResult(v: IndexView, key: KeyId, s: SubscriberId)
    requires Consistent(v)
    ensures key == AllKeys ==> EraseEntry(v, key, s).changed == (s in v.toAll)
    ensures key != AllKeys ==> EraseEntry(v, key, s).changed == Listed(v, key, s)
    ensures key == AllKeys ==> s !in EraseEntry(v, key, s).view.toAll
    ensures key != AllKeys ==> !Listed(EraseEntry(v, key, s).view, key, s)
  {
  }

  /** Erasing a pair that was just added restores the index. */
  lemma EraseUndoesAdd(v: IndexView, key: KeyId, s: SubscriberId)
    requires Consistent(v)
    requires key == AllKeys ==> s !in v.toAll
    requires key != AllKeys ==> !Listed(v, key, s)
    ensures EraseEntry(AddEntry(v, key, s).view, key, s) == Update(v, true)
  {
    if key != AllKeys {
      var w := AddEntry(v, key, s).view;
      assert s !in KeySubs(v, key);
      assert key !in KeysOf(v, s);
      assert KeySubs(w, key) - {s} == KeySubs(v, key);
      assert KeysOf(w, s) - {key} == KeysOf(v, s);
      var e := EraseEntry(w, key, s).view;
      if KeySubs(v, key) == {} {
        assert key !in v.keySubscribers;
        assert e.keySubscribers == v.keySubscribers;
      } else {
        assert e.keySubscribers == v.keySubscribers;
      }
      if KeysOf(v, s) == {} {
        assert s !in v.subscribedKeys;
        assert e.subscribedKeys == v.subscribedKeys;
      } else {
        assert e.subscribedKeys == v.subscribedKeys;
      }
    }
  }

  /** `EraseSubscriber` keeps the index invariant. */
  lemma EraseSubscriberConsistent(v: IndexView, s: SubscriberId)
    requires Consistent(v)
    ensures Consistent(EraseSubscriber(v, s).view)
  {
    var w := EraseSubscriber(v, s).view;
    forall k, t | Listed(w, k, t) ensures ReverseListed(w, t, k) {
      assert Listed(v, k, t);
    }
    forall t, k | ReverseListed(w, t, k) ensures Listed(w, k, t) {
      assert ReverseListed(v, t, k);
      assert t != s;
      assert v.keySubscribers[k] - {s} != {};
    }
  }

  /**
    `EraseSubscriber` returns whether the subscriber existed before the call;
    afterwards `HasSubscriber` is false for it, and every other subscriber keeps
    exactly its subscriptions.
  */
  lemma EraseSubscriberResult(v: IndexView, s: SubscriberId, t: SubscriberId, k: KeyId)
    requires Consistent(v)
    ensures EraseSubscriber(v, s).changed == HasSubscriber(v, s)
    ensures !HasSubscriber(EraseSubscriber(v, s).view, s)
    ensures s !in Subscribers(EraseSubscriber(v, s).view)
    ensures t != s ==> (t in EraseSubscriber(v, s).view.toAll <==> t in v.toAll)
    ensures t != s ==> KeysOf(EraseSubscriber(v, s).view, t) == KeysOf(v, t)
    ensures t != s ==> (Listed(EraseSubscriber(v, s).view, k, t) <==> Listed(v, k, t))
  {
    var w := EraseSubscriber(v, s).view;
    if t != s && Listed(v, k, t) {
      assert t in v.keySubscribers[k] - {s};
    }
  }

  /** In a consistent index the reverse side mentions exactly the subscribers that are listed under some key. */
  lemma ReverseIndexCovers(v: IndexView, s: SubscriberId)
    requires Consistent(v)
    ensures s in v.subscribedKeys <==> exists k :: Listed(v, k, s)
    ensures HasSubscriber(v, s) <==> s in Subscribers(v)
  {
    if s in v.subscribedKeys {
      var k :| k in v.subscribedKeys[s];
      assert ReverseListed(v, s, k);
    }
  }

  /** The ids returned for a key are the all-keys subscribers plus those listed under the key, counted once per side. */
  lemma SubscriberIdsByKeyIdMembers(v: IndexView, key: KeyId, s: SubscriberId)
    requires Consistent(v)
    ensures SubscriberIdsByKeyId(v, key)[s] == (if s in v.toAll then 1 else 0) + (if ReverseListed(v, s, key) then 1 else 0)
  {
    assert s in KeySubs(v, key) <==> Listed(v, key, s);
  }

  /** Everyone listed under a key is a subscriber the index mentions. */
  lemma KeySubsMentioned(v: IndexView, key: KeyId)
    requires Consistent(v)
    ensures KeySubs(v, key) <= Subscribers(v)
  {
    forall s | s in KeySubs(v, key) ensures s in v.subscribedKeys {
      assert Listed(v, key, s);
    }
  }

  /** Adding an entry adds its subscriber to the subscribers the index mentions. */
  lemma AddEntrySubscribers(v: IndexView, key: KeyId, s: SubscriberId)
    ensures Subscribers(AddEntry(v, key, s).view) == Subscribers(v) + {s}
  {
    if key != AllKeys {
      assert AddEntry(v, key, s).view.subscribedKeys.Keys == v.subscribedKeys.Keys + {s};
    }
  }

  /** Erasing an entry never adds a subscriber to the subscribers the index mentions. */
  lemma EraseEntrySubscribers(v: IndexView, key: KeyId, s: SubscriberId)
    ensures Subscribers(EraseEntry(v, key, s).view) <= Subscribers(v)
  {
  }

  /** Erasing a subscriber takes exactly it out of the subscribers the index mentions. */
  lemma EraseSubscriberSubscribers(v: IndexView, s: SubscriberId)
    ensures Subscribers(EraseSubscriber(v, s).view) == Subscribers(v) - {s}
  {
    assert EraseSubscriber(v, s).view.subscribedKeys.Keys == v.subscribedKeys.Keys - {s};
  }

  /** Every subscription of every subscriber in `gone` taken out at once. */
  function EraseSubscribers(v: IndexView, gone: set<SubscriberId>): IndexView {
    IndexView(
      v.toAll - gone,
      map k | k in v.keySubscribers && v.keySubscribers[k] - gone != {} :: v.keySubscribers[k] - gone,
      v.subscribedKeys - gone)
  }

  /** Erasing subscribers one at a time (in any order) is erasing them all at once. */
  lemma EraseSubscribersStep(v: IndexView, gone: set<SubscriberId>, s: SubscriberId)
    ensures EraseSubscriber(EraseSubscribers(v, gone), s).view == EraseSubscribers(v, gone + {s})
  {
    var u := EraseSubscribers(v, gone);
    var a := EraseSubscriber(u, s).view;
    var b := EraseSubscribers(v, gone + {s});
    assert a.toAll == b.toAll;
    forall k | k in v.keySubscribers ensures v.keySubscribers[k] - gone - {s} == v.keySubscribers[k] - (gone + {s}) {
    }
    assert a.keySubscribers == b.keySubscribers;
    assert a.subscribedKeys == b.subscribedKeys;
  }

  /** Erasing nobody changes nothing. */
  lemma EraseNoSubscribers(v: IndexView)
    requires Consistent(v)
    ensures EraseSubscribers(v, {}) == v
  {
    forall k | k in v.keySubscribers ensures v.keySubscribers[k] - {} == v.keySubscribers[k] {
    }
    assert EraseSubscribers(v, {}).keySubscribers == v.keySubscribers;
    assert v.toAll - {} == v.toAll;
    assert v.subscribedKeys - {} == v.subscribedKeys;
  }

  /** Erasing every subscriber an index mentions leaves no entity and no reverse entry behind. */
  lemma EraseEveryoneLeavesNothing(v: IndexView, gone: set<SubscriberId>)
    requires Consistent(v) && Subscribers(v) <= gone
    ensures NoLeaks(EraseSubscribers(v, gone)) && EraseSubscribers(v, gone).toAll == {}
  {
    var w := EraseSubscribers(v, gone);
    forall k | k in v.keySubscribers ensures v.keySubscribers[k] - gone == {} {
      forall t | t in v.keySubscribers[k] ensures t in gone {
        assert Listed(v, k, t);
      }
    }
    assert w.keySubscribers == map[];
    assert w.subscribedKeys == map[];
  }
}
