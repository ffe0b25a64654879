/**
  `EntityState` of `src/ray/pubsub/publisher.h`: the subscribers of one key (or
  of every key of a channel) and the accounting of in-flight messages, with an
  optional byte cap on what stays buffered.
*/
module EntityStates {
  import opened PubsubTypes

  /**
    How many of the oldest buffered messages are evicted before a message of
    `incoming` bytes is buffered under the cap `cap`; a cap that is not positive
    disables eviction.
  */
  function DropCount(sizes: seq<nat>, incoming: nat, cap: int): (d: nat)
    ensures d <= |sizes|
  {
    if cap <= 0 || sizes == [] || Sum(sizes) + incoming <= cap then 0
    else 1 + DropCount(sizes[1..], incoming, cap)
  }

  /** After evicting `DropCount` messages, the incoming message fits unless everything was evicted. */
  lemma {:induction false} DropCountFits(sizes: seq<nat>, incoming: nat, cap: int)
    ensures cap <= 0 ==> DropCount(sizes, incoming, cap) == 0
    ensures cap > 0 ==>
      var d := DropCount(sizes, incoming, cap);
      d == |sizes| || Sum(sizes[d..]) + incoming <= cap
  {
    if cap > 0 && sizes != [] && Sum(sizes) + incoming > cap {
      DropCountFits(sizes[1..], incoming, cap);
      var d := DropCount(sizes[1..], incoming, cap);
      assert sizes[1..][d..] == sizes[1 + d..];
    }
  }

  /** Eviction stops at the first point where the message fits: fewer evictions would overflow the cap. */
  lemma {:induction false} DropCountMinimal(sizes: seq<nat>, incoming: nat, cap: int, j: nat)
    requires j < DropCount(sizes, incoming, cap)
    ensures Sum(sizes[j..]) + incoming > cap
  {
    if j > 0 {
      DropCountMinimal(sizes[1..], incoming, cap, j - 1);
      assert sizes[1..][j - 1..] == sizes[j..];
    }
  }

  /** The in-flight messages of an entity, oldest first, with their sizes and the byte total. */
  datatype InFlight = InFlight(messages: seq<PubMessage>, sizes: seq<nat>, totalSize: nat)

  /** In-flight bookkeeping that adds up: one size per message, and the total is their sum. */
  type Pending = p: InFlight | |p.messages| == |p.sizes| && p.totalSize == Sum(p.sizes)
    witness InFlight([], [], 0)

  /**
    The byte caps on in-flight messages: each within the per-message cap
    `maxSize`, and with a positive buffer cap `cap` the total within it unless
    a single message alone is kept.
  */
  ghost predicate WithinCaps(p: Pending, maxSize: nat, cap: int) {
    && (forall i :: 0 <= i < |p.sizes| ==> p.sizes[i] <= maxSize)
    && (cap > 0 ==> p.totalSize <= cap || |p.sizes| == 1)
  }

  /** The pending messages from the `d`-th on. */
  function Suffix(p: Pending, d: nat): (r: Pending)
    requires d <= |p.sizes|
    ensures r.messages == p.messages[d..] && r.sizes == p.sizes[d..]
  {
    InFlight(p.messages[d..], p.sizes[d..], Sum(p.sizes[d..]))
  }

  /** The pending messages with `msg` of `size` bytes appended. */
  function Appended(p: Pending, msg: PubMessage, size: nat): (r: Pending)
    ensures r.messages == p.messages + [msg] && r.sizes == p.sizes + [size]
  {
    SumAppend(p.sizes, size);
    InFlight(p.messages + [msg], p.sizes + [size], p.totalSize + size)
  }

  /** The pending messages after evicting `DropCount` of them and appending `msg` of `size` bytes. */
  function EvictAndAppend(p: Pending, msg: PubMessage, size: nat, cap: int): Pending {
    Appended(Suffix(p, DropCount(p.sizes, size, cap)), msg, size)
  }

  /** Evicting `DropCount` messages and appending one within the per-message cap keeps the caps. */
  lemma EvictAndAppendWithinCaps(p: Pending, msg: PubMessage, size: nat, maxSize: nat, cap: int)
    requires WithinCaps(p, maxSize, cap) && size <= maxSize
    ensures WithinCaps(EvictAndAppend(p, msg, size, cap), maxSize, cap)
  {
    var d := DropCount(p.sizes, size, cap);
    DropCountFits(p.sizes, size, cap);
    var r := EvictAndAppend(p, msg, size, cap);
    forall i | 0 <= i < |r.sizes| ensures r.sizes[i] <= maxSize {
      if i < |p.sizes| - d { assert r.sizes[i] == p.sizes[d + i]; }
    }
    if d == |p.sizes| { assert r.sizes == [size]; }
  }

  /** Per-entity state: subscriber ids and the in-flight messages. */
  class EntityState {
    /** The channel and key this state belongs to; they only tell entity objects apart in proofs. */
    ghost const channel: ChannelType
    ghost const key: KeyId
    const maxMessageSizeBytes: nat
    const maxBufferedBytes: int
    var subscribers: set<SubscriberId>
    /** `pending_messages_`, `message_sizes_` and `total_size_` together. */
    var inFlight: Pending

    /** The in-flight messages respect this entity's byte caps. */
    ghost predicate WithinLimits()
      reads this`inFlight
    {
      WithinCaps(inFlight, maxMessageSizeBytes, maxBufferedBytes)
    }

    /** The byte limits arrive as `int64_t`; the per-message limit is stored as `size_t`. */
    constructor (ghost channel: ChannelType, ghost key: KeyId, maxMessageSizeBytes: int, maxBufferedBytes: int)
      requires -0x8000_0000_0000_0000 <= maxMessageSizeBytes < 0x8000_0000_0000_0000
      requires -0x8000_0000_0000_0000 <= maxBufferedBytes < 0x8000_0000_0000_0000
      ensures WithinLimits()
      ensures this.channel == channel && this.key == key
      ensures this.maxMessageSizeBytes == ToSizeT(maxMessageSizeBytes)
      ensures this.maxBufferedBytes == maxBufferedBytes
      ensures subscribers == {} && inFlight == InFlight([], [], 0)
    {
      this.channel := channel;
      this.key := key;
      this.maxMessageSizeBytes := ToSizeT(maxMessageSizeBytes);
      this.maxBufferedBytes := maxBufferedBytes;
      subscribers := {};
      inFlight := InFlight([], [], 0);
    }

    /** `GetNumBufferedBytes`: the bytes of the messages still in flight. */
    function NumBufferedBytes(): (n: nat)
      reads this`inFlight
      ensures n == Sum(inFlight.sizes)
    {
      inFlight.totalSize
    }

    /** `AddSubscriber`: true iff the subscriber was not yet present. */
    method AddSubscriber(id: SubscriberId) returns (added: bool)
      modifies this`subscribers
      ensures added == (id !in old(subscribers))
      ensures subscribers == old(subscribers) + {id}
    {
      added := id !in subscribers;
      subscribers := subscribers + {id};
    }

    /** `RemoveSubscriber`: true iff the subscriber was present. */
    method RemoveSubscriber(id: SubscriberId) returns (removed: bool)
      modifies this`subscribers
      ensures removed == (id in old(subscribers))
      ensures subscribers == old(subscribers) - {id}
    {
      removed := id in subscribers;
      subscribers := subscribers - {id};
    }

    /**
      `Publish`: nothing happens without subscribers; a message over the
      per-message cap is dropped; otherwise the oldest in-flight messages are
      evicted as `DropCount` says and the message is appended. `delivered` says
      whether the subscribers are to receive the message. The byte caps are kept.
    */
    method Publish(msg: PubMessage, msgSize: nat) returns (hasSubscribers: bool, delivered: bool)
      modifies this`inFlight
      ensures hasSubscribers == (subscribers != {})
      ensures delivered == (hasSubscribers && msgSize <= maxMessageSizeBytes)
      ensures inFlight == if delivered then EvictAndAppend(old(inFlight), msg, msgSize, maxBufferedBytes) else old(inFlight)
      ensures old(WithinLimits()) ==> WithinLimits()
    {
      hasSubscribers := subscribers != {};
      delivered := hasSubscribers && msgSize <= maxMessageSizeBytes;
      if !delivered {
        return;
      }
      ghost var p0 := inFlight;
      ghost var d: nat := 0;
      while maxBufferedBytes > 0 && |inFlight.sizes| > 0 && inFlight.totalSize + msgSize > maxBufferedBytes
        invariant d <= |p0.sizes| && inFlight == Suffix(p0, d)
        invariant d + DropCount(inFlight.sizes, msgSize, maxBufferedBytes) == DropCount(p0.sizes, msgSize, maxBufferedBytes)
        decreases |inFlight.sizes|
      {
        assert p0.sizes[d..][1..] == p0.sizes[d + 1..];
        assert p0.messages[d..][1..] == p0.messages[d + 1..];
        inFlight := Suffix(inFlight, 1);
        d := d + 1;
      }
      inFlight := Appended(inFlight, msg, msgSize);
      if WithinCaps(p0, maxMessageSizeBytes, maxBufferedBytes) {
        EvictAndAppendWithinCaps(p0, msg, msgSize, maxMessageSizeBytes, maxBufferedBytes);
      }
    }
  }
}
