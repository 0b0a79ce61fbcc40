/** The subscription table: which channels receive the messages of a session and type. */
module Subscriptions {
  import opened Seqs
  import opened Decimal
  import opened SubscriptionId

  /** Channels are told apart by a number. */
  type Channel = int

  type Slots = map<string, Channel>

  // ----- one table entry through a history -----

  function FiledAs(session: string, msgType: MessageType, now: nat): string {
    SubscriptionIdentifier(NewSubscriptionID(session, msgType, now))
  }

  /** The slots of (session, msgType) after cancelling a subscription. */
  function Cancel(slots: Slots, session: string, msgType: MessageType, id: string): Slots {
    match Unwrap(id)
    case Some((s, t, identifier)) => if s == session && t == msgType then slots - {identifier} else slots
    case None => slots
  }

  datatype Op =
    | Subscribe(session: string, msgType: MessageType, now: nat, channel: Channel)
    | Unsubscribe(k: nat)   // cancels the subscription made by operation k

  /** Every cancellation names an earlier subscription. */
  ghost predicate History(ops: seq<Op>) {
    forall j :: 0 <= j < |ops| && ops[j].Unsubscribe? ==> ops[j].k < j && ops[ops[j].k].Subscribe?
  }

  function IdOf(op: Op): string
    requires op.Subscribe?
  {
    NewSubscriptionID(op.session, op.msgType, op.now)
  }

  ghost function SlotsAfter(ops: seq<Op>, session: string, msgType: MessageType): Slots
    requires History(ops)
  {
    if ops == [] then map[]
    else
      var before := SlotsAfter(ops[..|ops| - 1], session, msgType);
      match ops[|ops| - 1]
      case Subscribe(s, t, now, channel) =>
        if s == session && t == msgType then before[FiledAs(s, t, now) := channel] else before
      case Unsubscribe(k) => Cancel(before, session, msgType, IdOf(ops[k]))
  }

  // ----- addressable sessions: exactly the live channels -----

  ghost predicate For(op: Op, session: string, msgType: MessageType) {
    op.Subscribe? && op.session == session && op.msgType == msgType
  }

  ghost predicate Cancelled(ops: seq<Op>, i: nat) {
    exists j :: i < j < |ops| && ops[j] == Unsubscribe(i)
  }

  /** No two subscriptions of the session and type were made at the same clock reading. */
  ghost predicate FreshTimes(ops: seq<Op>, session: string, msgType: MessageType) {
    forall i, j :: 0 <= i < j < |ops| && For(ops[i], session, msgType) && For(ops[j], session, msgType) ==>
                     ops[i].now != ops[j].now
  }

  /** Subscription i of the session and type was never cancelled, and this is its slot. */
  ghost predicate Occupies(ops: seq<Op>, i: nat, session: string, msgType: MessageType, key: string, channel: Channel) {
    && i < |ops| && For(ops[i], session, msgType) && !Cancelled(ops, i)
    && key == Print(ops[i].now) && channel == ops[i].channel
  }

  ghost predicate Occupied(ops: seq<Op>, session: string, msgType: MessageType, key: string, channel: Channel) {
    exists i: nat :: Occupies(ops, i, session, msgType, key, channel)
  }

  /** The channels of all slots, in the order of their keys as listed. */
  ghost predicate Enumerates(keys: seq<string>, channels: seq<Channel>, slots: Slots) {
    && Distinct(keys) && ToSet(keys) == slots.Keys && |channels| == |keys|
    && forall i :: 0 <= i < |keys| ==> Holds(slots, keys[i], channels[i])
  }

  ghost predicate Holds(slots: Slots, key: string, channel: Channel) {
    key in slots && slots[key] == channel
  }

  lemma CancelledBefore(ops: seq<Op>, front: seq<Op>, i: nat)
    requires ops != [] && front == ops[..|ops| - 1] && i < |front|
    ensures Cancelled(ops, i) <==> Cancelled(front, i) || ops[|ops| - 1] == Unsubscribe(i)
  {
    if Cancelled(front, i) {
      var j :| i < j < |front| && front[j] == Unsubscribe(i);
      assert ops[j] == Unsubscribe(i);
    }
    if Cancelled(ops, i) {
      var j :| i < j < |ops| && ops[j] == Unsubscribe(i);
      assert j < |front| ==> front[j] == Unsubscribe(i);
    }
  }

  /** In an addressable session the table holds exactly the channels of subscriptions that were not cancelled. */
  lemma {:induction false} TableHoldsLiveChannels(ops: seq<Op>, session: string, msgType: MessageType,
                                                  key: string, channel: Channel)
    requires History(ops) && Addressable(session, msgType) && FreshTimes(ops, session, msgType)
    ensures Holds(SlotsAfter(ops, session, msgType), key, channel) <==> Occupied(ops, session, msgType, key, channel)
  {
    if ops != [] {
      var front := ops[..|ops| - 1];
      TableHoldsLiveChannels(front, session, msgType, key, channel);
      if ops[|ops| - 1].Subscribe? {
        AfterSubscribing(ops, front, session, msgType, key, channel);
      } else {
        AfterCancelling(ops, front, session, msgType, key, channel);
      }
    }
  }

  lemma AfterSubscribing(ops: seq<Op>, front: seq<Op>, session: string, msgType: MessageType,
                         key: string, channel: Channel)
    requires History(ops) && Addressable(session, msgType) && FreshTimes(ops, session, msgType)
    requires ops != [] && front == ops[..|ops| - 1] && ops[|ops| - 1].Subscribe?
    requires Holds(SlotsAfter(front, session, msgType), key, channel) <==>
               Occupied(front, session, msgType, key, channel)
    ensures Holds(SlotsAfter(ops, session, msgType), key, channel) <==> Occupied(ops, session, msgType, key, channel)
  {
    var last, op := |front|, ops[|front|];
    UnwrapGeneratedIff(op.session, op.msgType, op.now);
    forall i: nat | i < last
      ensures Occupies(ops, i, session, msgType, key, channel) <==> Occupies(front, i, session, msgType, key, channel)
      ensures Occupies(ops, i, session, msgType, key, channel) && For(op, session, msgType) ==> key != Print(op.now)
    {
      CancelledBefore(ops, front, i);
      if For(ops[i], session, msgType) && Print(ops[i].now) == Print(op.now) {
        PrintIsInjective(ops[i].now, op.now);
      }
    }
    assert !Cancelled(ops, last);
    assert Occupies(ops, last, session, msgType, key, channel) <==>
           For(op, session, msgType) && key == Print(op.now) && channel == op.channel;
  }

  lemma AfterCancelling(ops: seq<Op>, front: seq<Op>, session: string, msgType: MessageType,
                        key: string, channel: Channel)
    requires History(ops) && Addressable(session, msgType) && FreshTimes(ops, session, msgType)
    requires ops != [] && front == ops[..|ops| - 1] && ops[|ops| - 1].Unsubscribe?
    requires Holds(SlotsAfter(front, session, msgType), key, channel) <==>
               Occupied(front, session, msgType, key, channel)
    ensures Holds(SlotsAfter(ops, session, msgType), key, channel) <==> Occupied(ops, session, msgType, key, channel)
  {
    var last, k := |front|, ops[|front|].k;
    UnwrapGeneratedIff(ops[k].session, ops[k].msgType, ops[k].now);
    forall i: nat | i < last
      ensures Occupies(ops, i, session, msgType, key, channel) <==>
                Occupies(front, i, session, msgType, key, channel) && i != k
      ensures For(ops[k], session, msgType) && key == Print(ops[k].now) ==>
                Occupies(front, i, session, msgType, key, channel) ==> i == k
    {
      CancelledBefore(ops, front, i);
      if For(ops[i], session, msgType) && Print(ops[i].now) == Print(ops[k].now) {
        PrintIsInjective(ops[i].now, ops[k].now);
      }
    }
    assert !For(ops[last], session, msgType);
    assert Occupies(front, k, session, msgType, key, channel) ==>
        For(ops[k], session, msgType) && key == Print(ops[k].now);
  }

  // ----- other sessions: one slot, never cancelled -----

  ghost function LastChannel(ops: seq<Op>, session: string, msgType: MessageType): Option<Channel> {
    if ops == [] then None
    else if For(ops[|ops| - 1], session, msgType) then Some(ops[|ops| - 1].channel)
    else LastChannel(ops[..|ops| - 1], session, msgType)
  }

  /** A session with a dash keeps only its latest channel, and cancelling has no effect. */
  lemma {:induction false} DashedSessionsKeepOneSlot(ops: seq<Op>, session: string, msgType: MessageType)
    requires History(ops) && !Addressable(session, msgType)
    ensures SlotsAfter(ops, session, msgType) ==
            match LastChannel(ops, session, msgType)
            case Some(channel) => map["" := channel]
            case None => map[]
  {
    if ops != [] {
      DashedSessionsKeepOneSlot(ops[..|ops| - 1], session, msgType);
      match ops[|ops| - 1] {
        case Subscribe(s, t, now, _) => UnwrapGeneratedIff(s, t, now);
        case Unsubscribe(k) => UnwrapGeneratedIff(ops[k].session, ops[k].msgType, ops[k].now);
      }
    }
  }

  // ----- the manager -----

  class SessionSubscriptionManager {
    var subscribersMap: map<string, map<int, Slots>>

    /** The slots of a session and type; a missing entry has none. */
    function SlotsOf(session: string, msgType: MessageType): Slots
      reads this
    {
      if session in subscribersMap && msgType in subscribersMap[session] then subscribersMap[session][msgType]
      else map[]
    }

    constructor ()
      ensures forall s, t :: SlotsOf(s, t) == map[]
    {
      subscribersMap := map[];
    }

    /** Every channel of the session and type, each slot once, in no particular order. */
    method GetSubscribers(session: string, msgType: MessageType) returns (channels: seq<Channel>)
      ensures exists keys :: Enumerates(keys, channels, SlotsOf(session, msgType))
    {
      var slots := SlotsOf(session, msgType);
      var left := slots.Keys;
      ghost var keys: seq<string> := [];
      channels := [];
      while left != {}
        invariant left <= slots.Keys && Distinct(keys) && ToSet(keys) == slots.Keys - left && |channels| == |keys|
        invariant forall i :: 0 <= i < |keys| ==> Holds(slots, keys[i], channels[i])
      {
        var key :| key in left;
        left := left - {key};
        assert key !in ToSet(keys) && ToSet(keys + [key]) == ToSet(keys) + {key};
        channels, keys := channels + [slots[key]], keys + [key];
      }
      assert Enumerates(keys, channels, slots);
    }

    method SubscribeTo(session: string, msgType: MessageType, channel: Channel, now: nat) returns (id: string)
      modifies this
      ensures id == NewSubscriptionID(session, msgType, now)
      ensures forall s, t :: SlotsOf(s, t) ==
                if s == session && t == msgType then old(SlotsOf(s, t))[FiledAs(s, t, now) := channel]
                else old(SlotsOf(s, t))
    {
      if session !in subscribersMap {
        subscribersMap := subscribersMap[session := map[]];
      }
      if msgType !in subscribersMap[session] {
        subscribersMap := subscribersMap[session := subscribersMap[session][msgType := map[]]];
      }
      id := NewSubscriptionID(session, msgType, now);
      var slots := subscribersMap[session][msgType][SubscriptionIdentifier(id) := channel];
      subscribersMap := subscribersMap[session := subscribersMap[session][msgType := slots]];
    }

    method UnSubscribeFrom(id: string)
      modifies this
      ensures forall s, t :: SlotsOf(s, t) == Cancel(old(SlotsOf(s, t)), s, t, id)
    {
      match Unwrap(id) {
        case None =>
        case Some((session, msgType, identifier)) =>
          if session !in subscribersMap || msgType !in subscribersMap[session]
             || identifier !in subscribersMap[session][msgType] {
            return;
          }
          var slots := subscribersMap[session][msgType] - {identifier};
          subscribersMap := subscribersMap[session := subscribersMap[session][msgType := slots]];
      }
    }
  }
}
