/**
  `SubscriberState` of `src/ray/pubsub/publisher.h`: the mailbox of one
  subscriber and its long-polling connection. The cached reply callback is
  modelled by a flag (`connected`) and by the log of replies sent through it
  (`replies`); the clock is the parameter `nowMs`.
*/
module SubscriberStates {
  import opened Options
  import opened PubsubTypes

  /** Sequence ids never decrease along `m` (a message for both a key and all keys is queued twice). */
  predicate IdsNondecreasing(m: seq<PubMessage>) {
    forall i, j :: 0 <= i < j < |m| ==> m[i].sequenceId <= m[j].sequenceId
  }

  /** Every sequence id in `m` is at most `bound`. */
  predicate IdsAtMost(m: seq<PubMessage>, bound: int) {
    forall i :: 0 <= i < |m| ==> m[i].sequenceId <= bound
  }

  /** The most messages one reply carries: the `int64_t` batch size compared as a `size_t` count. */
  function BatchLimit(publishBatchSize: int): nat
    requires -0x8000_0000_0000_0000 <= publishBatchSize < 0x8000_0000_0000_0000
  {
    ToSizeT(publishBatchSize)
  }

  /**
    How the batch size reads: a size of 0 or more is the count itself, and a
    negative size (the test-only `Publisher()` uses -1) becomes a `size_t` of
    at least 2^63, which cuts no mailbox of up to 2^63 messages.
  */
  lemma BatchLimitReading(mailbox: seq<PubMessage>, publishBatchSize: int)
    requires -0x8000_0000_0000_0000 <= publishBatchSize < 0x8000_0000_0000_0000
    ensures 0 <= publishBatchSize ==> BatchLimit(publishBatchSize) == publishBatchSize
    ensures publishBatchSize < 0 ==> BatchLimit(publishBatchSize) >= 0x8000_0000_0000_0000
    ensures publishBatchSize < 0 && |mailbox| <= 0x8000_0000_0000_0000 ==> Batch(mailbox, BatchLimit(publishBatchSize)) == mailbox
  {
  }

  /** The messages one non-empty reply carries: the oldest `limit` messages of the mailbox. */
  function Batch(mailbox: seq<PubMessage>, limit: nat): (b: seq<PubMessage>)
  {
    if |mailbox| <= limit then mailbox else mailbox[..limit]
  }

  /** A batch holds at most `limit` messages, is a prefix of the mailbox (FIFO order) and misses messages only when full. */
  lemma BatchIsBoundedPrefix(mailbox: seq<PubMessage>, limit: nat)
    ensures |Batch(mailbox, limit)| <= limit && |Batch(mailbox, limit)| <= |mailbox|
    ensures Batch(mailbox, limit) == mailbox[..|Batch(mailbox, limit)|]
    ensures |Batch(mailbox, limit)| < |mailbox| ==> |Batch(mailbox, limit)| == limit
  {
  }

  /** The acknowledged sequence id of a poll: ignored (taken as 0) unless the poll names this publisher. */
  function EffectiveAck(request: LongPollRequest, publisherId: PublisherId): int {
    if request.publisherId == Some(publisherId) then request.maxProcessedSequenceId else 0
  }

  /** How many messages at the front of the mailbox the subscriber has processed. */
  function AckedCount(mailbox: seq<PubMessage>, maxProcessed: int): (c: nat)
    ensures c <= |mailbox|
  {
    if mailbox == [] || mailbox[0].sequenceId > maxProcessed then 0
    else 1 + AckedCount(mailbox[1..], maxProcessed)
  }

  /** The acknowledged prefix is exactly the leading run of messages with ids up to `maxProcessed`. */
  lemma {:induction false} AckedCountSplits(mailbox: seq<PubMessage>, maxProcessed: int)
    ensures IdsAtMost(mailbox[..AckedCount(mailbox, maxProcessed)], maxProcessed)
    ensures AckedCount(mailbox, maxProcessed) < |mailbox| ==>
      mailbox[AckedCount(mailbox, maxProcessed)].sequenceId > maxProcessed
  {
    if mailbox != [] && mailbox[0].sequenceId <= maxProcessed {
      AckedCountSplits(mailbox[1..], maxProcessed);
      var c := AckedCount(mailbox[1..], maxProcessed);
      assert mailbox[..c + 1] == [mailbox[0]] + mailbox[1..][..c];
    }
  }

  /** A prefix of processed messages is acknowledged in full. */
  lemma {:induction false} AckedCountCovers(mailbox: seq<PubMessage>, maxProcessed: int, c: nat)
    requires c <= |mailbox| && IdsAtMost(mailbox[..c], maxProcessed)
    ensures c <= AckedCount(mailbox, maxProcessed)
  {
    if c > 0 {
      assert mailbox[..c][0] == mailbox[0];
      assert mailbox[1..][..c - 1] == mailbox[..c][1..];
      AckedCountCovers(mailbox[1..], maxProcessed, c - 1);
    }
  }

  /**
    Acknowledging the last message of the batch a subscriber received removes
    that whole batch from a mailbox in sequence order, and beyond it only
    further copies of that same last message.
  */
  lemma AckOfBatchRemovesBatch(mailbox: seq<PubMessage>, limit: nat)
    requires IdsNondecreasing(mailbox)
    requires Batch(mailbox, limit) != []
    ensures var b := Batch(mailbox, limit);
      var acked := AckedCount(mailbox, b[|b| - 1].sequenceId);
      && |b| <= acked
      && (forall i :: |b| <= i < acked ==> mailbox[i].sequenceId == b[|b| - 1].sequenceId)
  {
    var b := Batch(mailbox, limit);
    var last := b[|b| - 1].sequenceId;
    assert mailbox[..|b|] == b;
    AckedCountCovers(mailbox, last, |b|);
    AckedCountSplits(mailbox, last);
    var acked := AckedCount(mailbox, last);
    forall i | |b| <= i < acked ensures mailbox[i].sequenceId == last {
      assert mailbox[..acked][i] == mailbox[i];
      assert mailbox[|b| - 1] == b[|b| - 1];
    }
  }

  /**
    The mailbox order the publisher keeps: ids never decrease along `m`, and
    all lie between `lo` and `hi`.
  */
  predicate IdsInOrder(m: seq<PubMessage>, lo: int, hi: int) {
    m == [] || (lo <= m[0].sequenceId <= hi && IdsInOrder(m[1..], m[0].sequenceId, hi))
  }

  /** An ordered mailbox is nondecreasing and within its bounds. */
  lemma {:induction false} IdsInOrderMeans(m: seq<PubMessage>, lo: int, hi: int)
    requires IdsInOrder(m, lo, hi)
    ensures IdsNondecreasing(m) && IdsAtMost(m, hi)
    ensures forall i :: 0 <= i < |m| ==> lo <= m[i].sequenceId
  {
    if m != [] {
      IdsInOrderMeans(m[1..], m[0].sequenceId, hi);
      assert forall i :: 1 <= i < |m| ==> m[i] == m[1..][i - 1];
    }
  }

  /** Looser bounds keep a mailbox ordered. */
  lemma {:induction false} IdsInOrderWiden(m: seq<PubMessage>, lo: int, hi: int, lo': int, hi': int)
    requires IdsInOrder(m, lo, hi) && lo' <= lo && hi <= hi'
    ensures IdsInOrder(m, lo', hi')
  {
    if m != [] {
      IdsInOrderWiden(m[1..], m[0].sequenceId, hi, m[0].sequenceId, hi');
    }
  }

  /** Queuing a message whose id is at least every queued one keeps the mailbox ordered, with that id as the new bound. */
  lemma {:induction false} IdsInOrderAppend(m: seq<PubMessage>, msg: PubMessage, lo: int, hi: int)
    requires IdsInOrder(m, lo, hi) && lo <= msg.sequenceId && hi <= msg.sequenceId
    ensures IdsInOrder(m + [msg], lo, msg.sequenceId)
  {
    if m == [] {
      assert [msg][1..] == [];
    } else {
      assert (m + [msg])[1..] == m[1..] + [msg];
      IdsInOrderAppend(m[1..], msg, m[0].sequenceId, hi);
    }
  }

  /** Dropping acknowledged messages from the front keeps the mailbox ordered. */
  lemma {:induction false} IdsInOrderSuffix(m: seq<PubMessage>, c: nat, lo: int, hi: int)
    requires IdsInOrder(m, lo, hi) && c <= |m|
    ensures IdsInOrder(m[c..], lo, hi)
  {
    if c > 0 {
      assert m[c..] == m[1..][c - 1..];
      IdsInOrderSuffix(m[1..], c - 1, m[0].sequenceId, hi);
      IdsInOrderWiden(m[c..], m[0].sequenceId, hi, lo, hi);
    }
  }

  // ---------------------------------------------------------------------
  // The subscriber state as a value, and its transitions
  // ---------------------------------------------------------------------

  /** What a `SubscriberState` holds that changes. */
  datatype SubscriberView = SubscriberView(
    connected: bool,
    mailbox: seq<PubMessage>,
    lastUpdateMs: int,
    replies: seq<LongPollReply>)

  /** The settings a subscriber state is created with. */
  datatype Settings = Settings(publisherId: PublisherId, batchLimit: nat, connectionTimeoutMs: nat)

  /** `PublishIfPossible` replies iff a request is cached and there is something to send or a no-op is forced. */
  predicate CanPublish(v: SubscriberView, forceNoop: bool) {
    v.connected && (forceNoop || v.mailbox != [])
  }

  /** The state after `PublishIfPossible(forceNoop)` at time `nowMs`. */
  function AfterPublish(v: SubscriberView, forceNoop: bool, nowMs: int, cfg: Settings): SubscriberView {
    if CanPublish(v, forceNoop) then
      var messages := if forceNoop then [] else Batch(v.mailbox, cfg.batchLimit);
      SubscriberView(false, v.mailbox, nowMs, v.replies + [LongPollReply(cfg.publisherId, messages)])
    else v
  }

  /** The state after `QueueMessage(msg, tryPublish)`. */
  function AfterQueue(v: SubscriberView, msg: PubMessage, tryPublish: bool, nowMs: int, cfg: Settings): SubscriberView {
    var w := v.(mailbox := v.mailbox + [msg]);
    if tryPublish then AfterPublish(w, false, nowMs, cfg) else w
  }

  /** The state after `QueueMessage(msg)` ran `n` times. */
  function AfterQueueTimes(v: SubscriberView, msg: PubMessage, n: nat, nowMs: int, cfg: Settings): SubscriberView {
    if n == 0 then v else AfterQueue(AfterQueueTimes(v, msg, n - 1, nowMs, cfg), msg, true, nowMs, cfg)
  }

  /** The state after `ConnectToSubscriber(request)`: drop the acknowledged prefix, flush, cache, publish. */
  function AfterConnect(v: SubscriberView, request: LongPollRequest, nowMs: int, cfg: Settings): SubscriberView {
    var acked := v.(mailbox := v.mailbox[AckedCount(v.mailbox, EffectiveAck(request, cfg.publisherId))..]);
    var flushed := AfterPublish(acked, true, nowMs, cfg);
    AfterPublish(flushed.(connected := true, lastUpdateMs := nowMs), false, nowMs, cfg)
  }

  /** `IsActive`: a request or a reply less than the timeout ago. */
  predicate Active(v: SubscriberView, nowMs: int, cfg: Settings) {
    nowMs - v.lastUpdateMs < cfg.connectionTimeoutMs
  }

  /** `PublishIfPossible` never touches the mailbox, answers at most once, with at most a batch of the oldest messages, and only a cached request. */
  lemma PublishReplies(v: SubscriberView, forceNoop: bool, nowMs: int, cfg: Settings)
    ensures var w := AfterPublish(v, forceNoop, nowMs, cfg);
      && w.mailbox == v.mailbox
      && (CanPublish(v, forceNoop) <==> |w.replies| == |v.replies| + 1)
      && (!CanPublish(v, forceNoop) <==> w == v)
      && w.replies[..|v.replies|] == v.replies
      && (CanPublish(v, forceNoop) ==>
            && !w.connected && w.lastUpdateMs == nowMs
            && var sent := w.replies[|v.replies|].messages;
            && sent == v.mailbox[..|sent|]
            && |sent| <= cfg.batchLimit
            && (forceNoop ==> sent == [])
            && (!forceNoop && cfg.batchLimit > 0 ==> sent != [])
            && (!forceNoop && |sent| < cfg.batchLimit ==> sent == v.mailbox))
  {
    var w := AfterPublish(v, forceNoop, nowMs, cfg);
    assert w.replies[..|v.replies|] == v.replies;
    BatchIsBoundedPrefix(v.mailbox, cfg.batchLimit);
  }

  /** After a poll at most one request is cached, and it stays cached exactly when nothing is left to send. */
  lemma ConnectLeavesOneRequest(v: SubscriberView, request: LongPollRequest, nowMs: int, cfg: Settings)
    ensures var w := AfterConnect(v, request, nowMs, cfg);
      var rest := v.mailbox[AckedCount(v.mailbox, EffectiveAck(request, cfg.publisherId))..];
      && w.mailbox == rest
      && (w.connected <==> rest == [])
      && w.lastUpdateMs == nowMs
      && w.replies == v.replies
           + (if v.connected then [LongPollReply(cfg.publisherId, [])] else [])
           + (if rest != [] then [LongPollReply(cfg.publisherId, Batch(rest, cfg.batchLimit))] else [])
  {
  }

  /** Only a poll naming this publisher acknowledges anything; the acknowledged messages are those up to the acknowledged id. */
  lemma ConnectDropsAcknowledged(v: SubscriberView, request: LongPollRequest, nowMs: int, cfg: Settings)
    requires IdsNondecreasing(v.mailbox)
    ensures var w := AfterConnect(v, request, nowMs, cfg);
      var ack := EffectiveAck(request, cfg.publisherId);
      && (request.publisherId != Some(cfg.publisherId) ==> ack == 0)
      && w.mailbox == v.mailbox[|v.mailbox| - |w.mailbox|..]
      && (forall i :: 0 <= i < |v.mailbox| - |w.mailbox| ==> v.mailbox[i].sequenceId <= ack)
      && (forall i :: 0 <= i < |w.mailbox| ==> w.mailbox[i].sequenceId > ack)
  {
    var ack := EffectiveAck(request, cfg.publisherId);
    var c := AckedCount(v.mailbox, ack);
    AckedCountSplits(v.mailbox, ack);
    var w := AfterConnect(v, request, nowMs, cfg);
    assert |w.mailbox| == |v.mailbox| - c;
    forall i | 0 <= i < c ensures v.mailbox[i].sequenceId <= ack {
      assert v.mailbox[..c][i] == v.mailbox[i];
    }
  }

  /** Queuing appends the message; with a cached request the subscriber is answered with the oldest batch at once. */
  lemma QueueThenPublish(v: SubscriberView, msg: PubMessage, nowMs: int, cfg: Settings)
    ensures var w := AfterQueue(v, msg, true, nowMs, cfg);
      && w.mailbox == v.mailbox + [msg]
      && (v.connected ==> !w.connected && w.replies == v.replies + [LongPollReply(cfg.publisherId, Batch(v.mailbox + [msg], cfg.batchLimit))])
      && (!v.connected ==> w.replies == v.replies && !w.connected)
  {
  }

  /** `n` copies of a message are appended to the mailbox by `n` queuings, and the connection is used at most once. */
  lemma {:induction false} QueueTimesAppends(v: SubscriberView, msg: PubMessage, n: nat, nowMs: int, cfg: Settings)
    ensures var w := AfterQueueTimes(v, msg, n, nowMs, cfg);
      && w.mailbox == v.mailbox + seq(n, _ => msg)
      && |v.replies| <= |w.replies| <= |v.replies| + 1
      && (n > 0 ==> !w.connected)
      && (n == 0 ==> w == v)
  {
    if n > 0 {
      QueueTimesAppends(v, msg, n - 1, nowMs, cfg);
      assert seq(n, _ => msg) == seq(n - 1, _ => msg) + [msg];
      var u := AfterQueueTimes(v, msg, n - 1, nowMs, cfg);
      if n > 1 {
        assert !u.connected;
      }
    }
  }

  /** `CheckDeadSubscribers` deems a subscriber dead when it was inactive for the timeout and has no cached request. */
  predicate Dead(v: SubscriberView, nowMs: int, cfg: Settings) {
    !Active(v, nowMs, cfg) && !v.connected
  }

  /** The state after `CheckDeadSubscribers` at `nowMs` looked at it: an inactive subscriber gets an empty reply if it can. */
  function AfterCheck(v: SubscriberView, nowMs: int, cfg: Settings): SubscriberView {
    if Active(v, nowMs, cfg) then v else AfterPublish(v, true, nowMs, cfg)
  }

  /**
    The two-timeout rule of `CheckDeadSubscribers`: a subscriber with a cached
    request is never deemed dead; a check finding it inactive flushes the
    request, and a later check can deem it dead only a full timeout after that
    flush. So a subscriber last heard at `t0` survives until at least `t0 + 2 * timeout`.
  */
  lemma TwoTimeouts(v: SubscriberView, t1: int, t2: int, cfg: Settings)
    requires v.connected && t1 <= t2
    ensures !Dead(v, t1, cfg)
    ensures Dead(AfterCheck(v, t1, cfg), t2, cfg) ==> t2 >= v.lastUpdateMs + 2 * cfg.connectionTimeoutMs
  {
  }

  /** A check leaves a dead subscriber as it was, and a live one connected only if it was active. */
  lemma CheckKeepsDead(v: SubscriberView, nowMs: int, cfg: Settings)
    ensures Dead(v, nowMs, cfg) ==> AfterCheck(v, nowMs, cfg) == v
    ensures AfterCheck(v, nowMs, cfg).mailbox == v.mailbox
    ensures AfterCheck(v, nowMs, cfg).connected <==> v.connected && Active(v, nowMs, cfg)
  {
  }

  /** The state the publisher keeps for one subscriber. */
  class SubscriberState {
    const id: SubscriberId
    const connectionTimeoutMs: nat
    const publishBatchSize: int
    const publisherId: PublisherId
    /** Whether a long-polling request is cached and not yet replied to. */
    var connected: bool
    /** Queued messages, oldest first. */
    var mailbox: seq<PubMessage>
    var lastConnectionUpdateTimeMs: int
    /** The replies sent through the cached callbacks, oldest first. */
    var replies: seq<LongPollReply>

    /** The batch size arrives as `int64_t`; the last update time starts at the clock's current value. */
    constructor (id: SubscriberId, connectionTimeoutMs: nat, publishBatchSize: int, publisherId: PublisherId, nowMs: int)
      requires -0x8000_0000_0000_0000 <= publishBatchSize < 0x8000_0000_0000_0000
      ensures this.id == id && this.connectionTimeoutMs == connectionTimeoutMs
      ensures this.publishBatchSize == publishBatchSize && this.publisherId == publisherId
      ensures Valid() && mailbox == []
      ensures View() == SubscriberView(false, [], nowMs, [])
    {
      this.id := id;
      this.connectionTimeoutMs := connectionTimeoutMs;
      this.publishBatchSize := publishBatchSize;
      this.publisherId := publisherId;
      connected := false;
      mailbox := [];
      lastConnectionUpdateTimeMs := nowMs;
      replies := [];
    }

    /** The batch size is an `int64_t`. */
    predicate Valid()
    {
      -0x8000_0000_0000_0000 <= publishBatchSize < 0x8000_0000_0000_0000
    }

    function View(): SubscriberView
      reads this`connected, this`mailbox, this`lastConnectionUpdateTimeMs, this`replies
    {
      SubscriberView(connected, mailbox, lastConnectionUpdateTimeMs, replies)
    }

    function Config(): Settings
      requires Valid()
    {
      Settings(publisherId, BatchLimit(publishBatchSize), connectionTimeoutMs)
    }

    /** `ConnectionExists`: a long-polling request is cached. */
    function ConnectionExists(): (r: bool)
      reads this`connected
      ensures r <==> View().connected
    {
      connected
    }

    /** `IsActive`: there was a request or a reply less than the timeout ago. */
    function IsActive(nowMs: int): (r: bool)
      reads this`lastConnectionUpdateTimeMs
      requires Valid()
      ensures r <==> Active(View(), nowMs, Config())
      ensures r <==> nowMs < lastConnectionUpdateTimeMs + connectionTimeoutMs
    {
      nowMs - lastConnectionUpdateTimeMs < connectionTimeoutMs
    }

    /** `CheckNoLeaks`: no request is cached and every queued message was acknowledged. */
    function CheckNoLeaks(): (r: bool)
      reads this`connected, this`mailbox
      ensures r <==> !View().connected && View().mailbox == []
    {
      !connected && mailbox == []
    }

    /**
      `PublishIfPossible`: with a cached request and either `forceNoop` or
      queued messages, replies once (empty when `forceNoop`, else the oldest
      batch) and drops the cached request. The mailbox is kept: messages leave
      it only when acknowledged.
    */
    method PublishIfPossible(forceNoop: bool, nowMs: int) returns (published: bool)
      requires Valid()
      modifies this`connected, this`lastConnectionUpdateTimeMs, this`replies
      ensures published == CanPublish(old(View()), forceNoop)
      ensures View() == AfterPublish(old(View()), forceNoop, nowMs, Config())
    {
      if !connected || (!forceNoop && mailbox == []) {
        return false;
      }
      var messages: seq<PubMessage> := [];
      if !forceNoop {
        var limit := BatchLimit(publishBatchSize);
        var i := 0;
        while i < |mailbox| && |messages| < limit
          invariant i <= |mailbox| && i <= limit
          invariant messages == mailbox[..i]
        {
          messages := messages + [mailbox[i]];
          i := i + 1;
        }
        assert mailbox[..|mailbox|] == mailbox;
      }
      replies := replies + [LongPollReply(publisherId, messages)];
      connected := false;
      lastConnectionUpdateTimeMs := nowMs;
      published := true;
    }

    /** `QueueMessage`: appends the message and, when asked to, tries to publish. */
    method QueueMessage(msg: PubMessage, tryPublish: bool, nowMs: int)
      requires Valid()
      modifies this`mailbox, this`connected, this`lastConnectionUpdateTimeMs, this`replies
      ensures View() == AfterQueue(old(View()), msg, tryPublish, nowMs, Config())
    {
      mailbox := mailbox + [msg];
      if tryPublish {
        var _ := PublishIfPossible(false, nowMs);
      }
    }

    /**
      `ConnectToSubscriber`: drops the messages the poll acknowledges, flushes
      a request still cached with an empty reply, caches the new one and
      publishes if anything is queued.
    */
    method ConnectToSubscriber(request: LongPollRequest, nowMs: int)
      requires Valid()
      modifies this`mailbox, this`connected, this`lastConnectionUpdateTimeMs, this`replies
      ensures View() == AfterConnect(old(View()), request, nowMs, Config())
    {
      PopAcknowledged(EffectiveAck(request, publisherId));
      if connected {
        var _ := PublishIfPossible(true, nowMs);
      }
      connected := true;
      lastConnectionUpdateTimeMs := nowMs;
      var _ := PublishIfPossible(false, nowMs);
    }

    /** Drops the acknowledged messages at the front of the mailbox. */
    method PopAcknowledged(maxProcessed: int)
      modifies this`mailbox
      ensures mailbox == old(mailbox)[AckedCount(old(mailbox), maxProcessed)..]
    {
      ghost var k: nat := 0;
      while mailbox != [] && mailbox[0].sequenceId <= maxProcessed
        invariant k <= |old(mailbox)|
        invariant mailbox == old(mailbox)[k..]
        invariant k + AckedCount(mailbox, maxProcessed) == AckedCount(old(mailbox), maxProcessed)
        decreases |mailbox|
      {
        mailbox := mailbox[1..];
        k := k + 1;
      }
    }
  }
}
