/**
  Identifiers and messages of the pub/sub layer of `src/ray/pubsub/publisher.h`.
  Unique ids are modelled as naturals; protobuf messages as datatypes that keep
  only the fields the publisher reads or writes.
*/
module PubsubTypes {
  import opened Options

  type SubscriberId = nat
  type PublisherId = nat
  type ChannelType = nat
  type KeyId = string
  /** The empty key id, which subscribes to every key of a channel. */
  const AllKeys: KeyId := ""

  /** The payload of a published message. */
  datatype InnerMessage = DataMessage(payload: seq<bv8>) | FailureMessage

  /** `rpc::PubMessage`: channel, entity key, the publisher's sequence id (0 = not set) and the payload. */
  datatype PubMessage = PubMessage(channelType: ChannelType, keyId: KeyId, sequenceId: int, inner: InnerMessage)

  /** `rpc::PubsubLongPollingRequest`: who polls, the publisher it believes it talks to, and how far it has processed. */
  datatype LongPollRequest = LongPollRequest(
    subscriberId: SubscriberId,
    publisherId: Option<PublisherId>,
    maxProcessedSequenceId: int)

  /** `rpc::PubsubLongPollingReply` as sent through the reply callback. */
  datatype LongPollReply = LongPollReply(publisherId: PublisherId, messages: seq<PubMessage>)

  /** Conversion of an `int64_t` to `size_t` (two's complement wrap of negative values). */
  function ToSizeT(x: int): nat
    requires -0x8000_0000_0000_0000 <= x < 0x8000_0000_0000_0000
  {
    if x < 0 then x + 0x1_0000_0000_0000_0000 else x
  }

  function Sum(s: seq<nat>): nat {
    if s == [] then 0 else s[0] + Sum(s[1..])
  }

  lemma {:induction false} SumAppend(s: seq<nat>, x: nat)
    ensures Sum(s + [x]) == Sum(s) + x
  {
    if s == [] {
      assert s + [x] == [x];
    } else {
      assert (s + [x])[1..] == s[1..] + [x];
      SumAppend(s[1..], x);
    }
  }
}
