/** The subscription list `topic_subscription_list_`: an ordered sequence of
    records, each a full topic pattern with two independently optional
    callbacks, and what delivering a message to it calls. */
module Registry {
  import opened Types
  import opened Matcher

  /** `TopicSubscriptionRecord`: the pattern, the payload-only callback and
      the payload-and-topic callback; an absent callback is `NULL`. */
  datatype Record = Record(topic: string, callback: Option<CallbackId>, callbackWithTopic: Option<CallbackId>)

  /** Some record has exactly this topic. */
  predicate HasTopic(list: seq<Record>, topic: string)
  {
    exists i | 0 <= i < |list| :: list[i].topic == topic
  }

  /** No two records share a topic. */
  predicate UniqueTopics(list: seq<Record>)
  {
    forall i, j | 0 <= i < j < |list| :: list[i].topic != list[j].topic
  }

  /** The list after a successful subscribe: `record` is appended unless a
      record with its topic is already there, in which case nothing changes
      (the existing record keeps its callbacks). */
  function AddIfAbsent(list: seq<Record>, record: Record): (r: seq<Record>)
    ensures HasTopic(r, record.topic)
    ensures list <= r && |r| <= |list| + 1
    ensures HasTopic(list, record.topic) ==> r == list
    ensures !HasTopic(list, record.topic) ==> r == list + [record]
    ensures UniqueTopics(list) ==> UniqueTopics(r)
  {
    if HasTopic(list, record.topic) then list
    else
      assert (list + [record])[|list|].topic == record.topic;
      list + [record]
  }

  /** The list without the records whose topic is `topic`, in order. */
  function RemoveTopic(list: seq<Record>, topic: string): (r: seq<Record>)
    ensures |r| <= |list|
    decreases |list|
  {
    if list == [] then []
    else
      var last := list[|list| - 1];
      RemoveTopic(list[..|list| - 1], topic) + (if last.topic == topic then [] else [last])
  }

  /** The number of records whose topic is `topic`. */
  function CountTopic(list: seq<Record>, topic: string): (n: nat)
    ensures n <= |list|
    decreases |list|
  {
    if list == [] then 0
    else CountTopic(list[..|list| - 1], topic) + (if list[|list| - 1].topic == topic then 1 else 0)
  }

  /** The list after the topic-callback subscribe: the LAST record gets the
      topic callback, whichever topic it has. */
  function PatchLast(list: seq<Record>, callback: Option<CallbackId>): (r: seq<Record>)
    requires list != []
    ensures |r| == |list|
    ensures forall i | 0 <= i < |list| :: r[i].topic == list[i].topic && r[i].callback == list[i].callback
    ensures forall i | 0 <= i < |list| - 1 :: r[i] == list[i]
    ensures r[|list| - 1].callbackWithTopic == callback
    ensures UniqueTopics(list) ==> UniqueTopics(r)
  {
    list[|list| - 1 := list[|list| - 1].(callbackWithTopic := callback)]
  }

  /** A reference for the topic-callback subscribe that attaches the callback
      by topic: the records on `topic` get the topic callback, and every
      other record is untouched. */
  function PatchTopic(list: seq<Record>, topic: string, callback: Option<CallbackId>): (r: seq<Record>)
    ensures |r| == |list|
    ensures forall i | 0 <= i < |list| ::
      r[i] == if list[i].topic == topic then list[i].(callbackWithTopic := callback) else list[i]
    decreases |list|
  {
    if list == [] then []
    else
      var last := list[|list| - 1];
      PatchTopic(list[..|list| - 1], topic, callback) +
        [if last.topic == topic then last.(callbackWithTopic := callback) else last]
  }

  /** After a subscribe the topic is in the list, so the corrected patch
      leaves a record on the topic that holds the topic callback, and keeps
      the topics unique. */
  lemma PatchTopicAttaches(list: seq<Record>, record: Record, callback: Option<CallbackId>)
    requires UniqueTopics(list)
    ensures var r := PatchTopic(AddIfAbsent(list, record), record.topic, callback);
      && UniqueTopics(r)
      && exists i | 0 <= i < |r| :: r[i].topic == record.topic && r[i].callbackWithTopic == callback
  {
    var added := AddIfAbsent(list, record);
    var i :| 0 <= i < |added| && added[i].topic == record.topic;
    var r := PatchTopic(added, record.topic, callback);
    assert r[i].topic == record.topic && r[i].callbackWithTopic == callback;
  }

  /** On a topic not yet subscribed the new record is the last one, so the
      code's patch and the corrected one agree. */
  lemma PatchLastAgreesWhenFresh(list: seq<Record>, record: Record, callback: Option<CallbackId>)
    requires !HasTopic(list, record.topic)
    ensures PatchLast(AddIfAbsent(list, record), callback) == PatchTopic(AddIfAbsent(list, record), record.topic, callback)
  {
    var added := AddIfAbsent(list, record);
    assert added == list + [record];
    assert forall i | 0 <= i < |list| :: added[i] == list[i] && list[i].topic != record.topic;
  }

  /** On a topic that is already subscribed, when another record is last,
      the code gives the topic callback to that other record, and the record
      on the topic keeps its old one. */
  lemma PatchLastMissesTopic(list: seq<Record>, record: Record, callback: Option<CallbackId>)
    requires HasTopic(list, record.topic) && list[|list| - 1].topic != record.topic
    requires list[|list| - 1].callbackWithTopic != callback
    ensures var r := PatchLast(AddIfAbsent(list, record), callback);
      && r[|list| - 1].topic != record.topic && r[|list| - 1].callbackWithTopic == callback
      && (forall i | 0 <= i < |list| && list[i].topic == record.topic :: r[i] == list[i])
      && r != PatchTopic(AddIfAbsent(list, record), record.topic, callback)
  {
    var p := PatchTopic(list, record.topic, callback);
    assert p[|list| - 1] == list[|list| - 1];
  }

  /** No record is counted iff no record has the topic. */
  lemma {:induction false} CountTopicZero(list: seq<Record>, topic: string)
    ensures CountTopic(list, topic) == 0 <==> !HasTopic(list, topic)
    decreases |list|
  {
    if list != [] {
      var init := list[..|list| - 1];
      CountTopicZero(init, topic);
      if HasTopic(init, topic) {
        var i :| 0 <= i < |init| && init[i].topic == topic;
        assert list[i].topic == topic;
      }
      if HasTopic(list, topic) && list[|list| - 1].topic != topic {
        var i :| 0 <= i < |list| && list[i].topic == topic;
        assert init[i].topic == topic;
      }
    }
  }

  /** With unique topics, at most one record has a given topic. */
  lemma {:induction false} UniqueCountAtMostOne(list: seq<Record>, topic: string)
    requires UniqueTopics(list)
    ensures CountTopic(list, topic) <= 1
    decreases |list|
  {
    if list != [] {
      var init := list[..|list| - 1];
      assert UniqueTopics(init);
      UniqueCountAtMostOne(init, topic);
      if list[|list| - 1].topic == topic {
        CountTopicZero(init, topic);
      }
    }
  }

  /** Removing a topic keeps exactly the other records, and removes as many
      records as carry the topic. */
  lemma {:induction false} RemoveTopicKeepsOthers(list: seq<Record>, topic: string)
    ensures !HasTopic(RemoveTopic(list, topic), topic)
    ensures forall r :: r in RemoveTopic(list, topic) <==> r in list && r.topic != topic
    ensures |RemoveTopic(list, topic)| + CountTopic(list, topic) == |list|
  {
    RemoveTopicMembers(list, topic);
    RemoveTopicLength(list, topic);
  }

  /** The records that remain are the records with another topic. */
  lemma {:induction false} RemoveTopicMembers(list: seq<Record>, topic: string)
    ensures forall r :: r in RemoveTopic(list, topic) <==> r in list && r.topic != topic
    decreases |list|
  {
    if list != [] {
      var init := list[..|list| - 1];
      RemoveTopicMembers(init, topic);
      assert list == init + [list[|list| - 1]];
    }
  }

  /** Removal drops exactly the counted records. */
  lemma {:induction false} RemoveTopicLength(list: seq<Record>, topic: string)
    ensures |RemoveTopic(list, topic)| + CountTopic(list, topic) == |list|
    decreases |list|
  {
    if list != [] {
      RemoveTopicLength(list[..|list| - 1], topic);
    }
  }

  /** One more record of a prefix: how removal and counting extend. */
  lemma PrefixStep(list: seq<Record>, j: nat, topic: string)
    requires j < |list|
    ensures RemoveTopic(list[..j + 1], topic) == RemoveTopic(list[..j], topic) + (if list[j].topic == topic then [] else [list[j]])
    ensures CountTopic(list[..j + 1], topic) == CountTopic(list[..j], topic) + (if list[j].topic == topic then 1 else 0)
  {
    assert list[..j + 1][..j] == list[..j];
  }

  /** The erase loop of `unsubscribe` over `list`, with `records` its current
      list: the first `i` records are what removal leaves of the first `j`
      records of `list`, and the rest is untouched. */
  predicate ErasedUpTo(records: seq<Record>, list: seq<Record>, i: nat, j: nat, topic: string)
  {
    i <= |records| && j <= |list| &&
    records[..i] == RemoveTopic(list[..j], topic) && records[i..] == list[j..]
  }

  /** Erasing a matching record at `i` advances the walk over `list` by one. */
  lemma EraseStep(records: seq<Record>, list: seq<Record>, i: nat, j: nat, topic: string)
    requires ErasedUpTo(records, list, i, j, topic) && i < |records| && records[i].topic == topic
    ensures ErasedUpTo(records[..i] + records[i + 1..], list, i, j + 1, topic)
  {
    assert records[i] == list[j];
    PrefixStep(list, j, topic);
    var r := records[..i] + records[i + 1..];
    assert r[..i] == records[..i];
    assert r[i..] == records[i + 1..];
  }

  /** Keeping a record at `i` on another topic advances both walks by one. */
  lemma SkipStep(records: seq<Record>, list: seq<Record>, i: nat, j: nat, topic: string)
    requires ErasedUpTo(records, list, i, j, topic) && i < |records| && records[i].topic != topic
    ensures ErasedUpTo(records, list, i + 1, j + 1, topic)
  {
    assert records[i] == list[j];
    PrefixStep(list, j, topic);
    assert records[..i + 1] == records[..i] + [records[i]];
  }

  /** Removing a topic keeps the records in their original relative order:
      it is the filter of the list. */
  lemma {:induction false} RemoveTopicAppend(a: seq<Record>, b: seq<Record>, topic: string)
    ensures RemoveTopic(a + b, topic) == RemoveTopic(a, topic) + RemoveTopic(b, topic)
    decreases |b|
  {
    if b == [] {
      assert a + b == a;
    } else {
      var init := b[..|b| - 1];
      assert (a + b)[..|a + b| - 1] == a + init;
      RemoveTopicAppend(a, init, topic);
    }
  }

  /** Removing a topic keeps the list's unique topics unique. */
  lemma {:induction false} RemoveTopicUnique(list: seq<Record>, topic: string)
    requires UniqueTopics(list)
    ensures UniqueTopics(RemoveTopic(list, topic))
    decreases |list|
  {
    if list != [] {
      var init := list[..|list| - 1];
      var last := list[|list| - 1];
      assert UniqueTopics(init);
      RemoveTopicUnique(init, topic);
      RemoveTopicKeepsOthers(init, topic);
      var r0 := RemoveTopic(init, topic);
      if last.topic != topic {
        forall i | 0 <= i < |r0| ensures r0[i].topic != last.topic {
          assert r0[i] in r0;
          var j :| 0 <= j < |init| && init[j] == r0[i];
          assert list[j] == init[j];
        }
      }
    }
  }

  /** Subscribing twice to the same topic leaves exactly one record for it. */
  lemma SubscribeTwiceOneRecord(list: seq<Record>, first: Record, second: Record)
    requires UniqueTopics(list) && first.topic == second.topic
    ensures AddIfAbsent(AddIfAbsent(list, first), second) == AddIfAbsent(list, first)
    ensures CountTopic(AddIfAbsent(list, first), first.topic) == 1
  {
    var r := AddIfAbsent(list, first);
    UniqueCountAtMostOne(r, first.topic);
    CountTopicZero(r, first.topic);
  }

  /** Unsubscribing undoes a subscribe: adding then removing a topic leaves
      what removing it alone leaves. */
  lemma UnsubscribeUndoesSubscribe(list: seq<Record>, record: Record)
    ensures RemoveTopic(AddIfAbsent(list, record), record.topic) == RemoveTopic(list, record.topic)
  {
    if !HasTopic(list, record.topic) {
      RemoveTopicAppend(list, [record], record.topic);
      assert RemoveTopic([record], record.topic) == RemoveTopic([], record.topic) + [] by {
        assert [record][..0] == [];
      }
    }
  }

  /** The callbacks one record calls for a message on `topic`: the
      payload-only callback, then the payload-and-topic callback, each when
      present, and nothing when the pattern does not match. */
  function RecordEffects(record: Record, topic: string, payload: seq<byte>): seq<Effect>
  {
    if !TopicMatch(record.topic, topic) then []
    else
      (if record.callback.Some? then [MessageCallback(record.callback.value, payload)] else []) +
      (if record.callbackWithTopic.Some? then [TopicMessageCallback(record.callbackWithTopic.value, topic, payload)] else [])
  }

  /** The callbacks the dispatch loop calls, record by record in list order. */
  function DispatchEffects(list: seq<Record>, topic: string, payload: seq<byte>): seq<Effect>
    decreases |list|
  {
    if list == [] then []
    else DispatchEffects(list[..|list| - 1], topic, payload) + RecordEffects(list[|list| - 1], topic, payload)
  }

  /** One more record of a prefix: dispatch extends by that record's calls. */
  lemma DispatchStep(list: seq<Record>, j: nat, topic: string, payload: seq<byte>)
    requires j < |list|
    ensures DispatchEffects(list[..j + 1], topic, payload) == DispatchEffects(list[..j], topic, payload) + RecordEffects(list[j], topic, payload)
  {
    assert list[..j + 1][..j] == list[..j];
  }

  /** Concatenation of call logs is associative. Dafny knows this, but
      naming the one instance a proof needs keeps that proof cheap. */
  lemma SeqAssoc(x: seq<Effect>, y: seq<Effect>, z: seq<Effect>)
    ensures (x + y) + z == x + (y + z)
  {
  }

  /** Dispatch follows list order: dispatching to `a + b` calls `a`'s callbacks,
      then `b`'s. */
  lemma {:induction false} DispatchAppend(a: seq<Record>, b: seq<Record>, topic: string, payload: seq<byte>)
    ensures DispatchEffects(a + b, topic, payload) == DispatchEffects(a, topic, payload) + DispatchEffects(b, topic, payload)
    decreases |b|
  {
    if b == [] {
      assert a + b == a;
    } else {
      var init, last := b[..|b| - 1], b[|b| - 1];
      var r := RecordEffects(last, topic, payload);
      assert (a + b)[..|a + b| - 1] == a + init;
      assert (a + b)[|a + b| - 1] == last;
      assert DispatchEffects(a + b, topic, payload) == DispatchEffects(a + init, topic, payload) + r;
      DispatchAppend(a, init, topic, payload);
      assert DispatchEffects(b, topic, payload) == DispatchEffects(init, topic, payload) + r;
      SeqAssoc(DispatchEffects(a, topic, payload), DispatchEffects(init, topic, payload), r);
    }
  }

  /** A record calls the payload-only callback `callback` iff its pattern
      matches and it holds that callback. */
  lemma RecordCallsCallback(record: Record, topic: string, payload: seq<byte>, callback: CallbackId)
    ensures MessageCallback(callback, payload) in RecordEffects(record, topic, payload) <==>
      TopicMatch(record.topic, topic) && record.callback == Some(callback)
  {
  }

  /** A record calls the payload-and-topic callback `callback` iff its pattern
      matches and it holds that callback. */
  lemma RecordCallsTopicCallback(record: Record, topic: string, payload: seq<byte>, callback: CallbackId)
    ensures TopicMessageCallback(callback, topic, payload) in RecordEffects(record, topic, payload) <==>
      TopicMatch(record.topic, topic) && record.callbackWithTopic == Some(callback)
  {
  }

  /** Some record of the list matches `topic` and holds `callback` as its
      payload-only callback. */
  predicate HoldsCallback(list: seq<Record>, topic: string, callback: CallbackId)
  {
    exists i | 0 <= i < |list| :: list[i].callback == Some(callback) && TopicMatch(list[i].topic, topic)
  }

  /** Some record of the list matches `topic` and holds `callback` as its
      payload-and-topic callback. */
  predicate HoldsTopicCallback(list: seq<Record>, topic: string, callback: CallbackId)
  {
    exists i | 0 <= i < |list| :: list[i].callbackWithTopic == Some(callback) && TopicMatch(list[i].topic, topic)
  }

  lemma HoldsSplit(list: seq<Record>, topic: string, callback: CallbackId)
    requires list != []
    ensures HoldsCallback(list, topic, callback) <==>
      HoldsCallback(list[..|list| - 1], topic, callback) ||
      (list[|list| - 1].callback == Some(callback) && TopicMatch(list[|list| - 1].topic, topic))
    ensures HoldsTopicCallback(list, topic, callback) <==>
      HoldsTopicCallback(list[..|list| - 1], topic, callback) ||
      (list[|list| - 1].callbackWithTopic == Some(callback) && TopicMatch(list[|list| - 1].topic, topic))
  {
    var init := list[..|list| - 1];
    assert forall i | 0 <= i < |init| :: init[i] == list[i];
  }

  /** A payload-only callback is called iff some record whose pattern matches
      the topic holds it. */
  lemma {:induction false} DispatchCallsCallback(list: seq<Record>, topic: string, payload: seq<byte>, callback: CallbackId)
    ensures MessageCallback(callback, payload) in DispatchEffects(list, topic, payload) <==> HoldsCallback(list, topic, callback)
    decreases |list|
  {
    if list != [] {
      var init, last := list[..|list| - 1], list[|list| - 1];
      DispatchCallsCallback(init, topic, payload, callback);
      RecordCallsCallback(last, topic, payload, callback);
      HoldsSplit(list, topic, callback);
    }
  }

  /** A payload-and-topic callback is called iff some record whose pattern
      matches the topic holds it. */
  lemma {:induction false} DispatchCallsTopicCallback(list: seq<Record>, topic: string, payload: seq<byte>, callback: CallbackId)
    ensures TopicMessageCallback(callback, topic, payload) in DispatchEffects(list, topic, payload) <==> HoldsTopicCallback(list, topic, callback)
    decreases |list|
  {
    if list != [] {
      var init, last := list[..|list| - 1], list[|list| - 1];
      DispatchCallsTopicCallback(init, topic, payload, callback);
      RecordCallsTopicCallback(last, topic, payload, callback);
      HoldsSplit(list, topic, callback);
    }
  }

  /** A message no pattern matches calls nothing. */
  lemma {:induction false} DispatchNoMatch(list: seq<Record>, topic: string, payload: seq<byte>)
    requires forall i | 0 <= i < |list| :: !TopicMatch(list[i].topic, topic)
    ensures DispatchEffects(list, topic, payload) == []
    decreases |list|
  {
    if list != [] {
      DispatchNoMatch(list[..|list| - 1], topic, payload);
    }
  }

  /** The number of records that match `topic` and hold `callback` as their
      payload-only callback. */
  function HolderCount(list: seq<Record>, topic: string, callback: CallbackId): (n: nat)
    ensures n <= |list|
    decreases |list|
  {
    if list == [] then 0
    else
      var last := list[|list| - 1];
      HolderCount(list[..|list| - 1], topic, callback) +
        (if last.callback == Some(callback) && TopicMatch(last.topic, topic) then 1 else 0)
  }

  /** The number of records that match `topic` and hold `callback` as their
      payload-and-topic callback. */
  function TopicHolderCount(list: seq<Record>, topic: string, callback: CallbackId): (n: nat)
    ensures n <= |list|
    decreases |list|
  {
    if list == [] then 0
    else
      var last := list[|list| - 1];
      TopicHolderCount(list[..|list| - 1], topic, callback) +
        (if last.callbackWithTopic == Some(callback) && TopicMatch(last.topic, topic) then 1 else 0)
  }

  /** One record makes one call per callback it holds, and none when its
      pattern does not match. */
  lemma RecordEffectsLength(record: Record, topic: string, payload: seq<byte>)
    ensures |RecordEffects(record, topic, payload)| ==
      if !TopicMatch(record.topic, topic) then 0
      else (if record.callback.Some? then 1 else 0) + (if record.callbackWithTopic.Some? then 1 else 0)
  {
  }

  /** Each payload-only callback is called exactly once per matching record
      that holds it. */
  lemma {:induction false} DispatchCountsCallback(list: seq<Record>, topic: string, payload: seq<byte>, callback: CallbackId)
    ensures multiset(DispatchEffects(list, topic, payload))[MessageCallback(callback, payload)] == HolderCount(list, topic, callback)
    decreases |list|
  {
    if list != [] {
      var init, last := list[..|list| - 1], list[|list| - 1];
      DispatchCountsCallback(init, topic, payload, callback);
      assert multiset(DispatchEffects(list, topic, payload)) ==
        multiset(DispatchEffects(init, topic, payload)) + multiset(RecordEffects(last, topic, payload));
    }
  }

  /** Each payload-and-topic callback is called exactly once per matching
      record that holds it. */
  lemma {:induction false} DispatchCountsTopicCallback(list: seq<Record>, topic: string, payload: seq<byte>, callback: CallbackId)
    ensures multiset(DispatchEffects(list, topic, payload))[TopicMessageCallback(callback, topic, payload)] == TopicHolderCount(list, topic, callback)
    decreases |list|
  {
    if list != [] {
      var init, last := list[..|list| - 1], list[|list| - 1];
      DispatchCountsTopicCallback(init, topic, payload, callback);
      assert multiset(DispatchEffects(list, topic, payload)) ==
        multiset(DispatchEffects(init, topic, payload)) + multiset(RecordEffects(last, topic, payload));
    }
  }

  /** The dispatch makes exactly the calls of its records, one per callback
      held by a matching record. */
  lemma {:induction false} DispatchLength(list: seq<Record>, topic: string, payload: seq<byte>)
    ensures |DispatchEffects(list, topic, payload)| ==
      HeldCallbacks(list, topic)
    decreases |list|
  {
    if list != [] {
      DispatchLength(list[..|list| - 1], topic, payload);
      RecordEffectsLength(list[|list| - 1], topic, payload);
    }
  }

  /** The number of callbacks held by the records whose pattern matches `topic`. */
  function HeldCallbacks(list: seq<Record>, topic: string): nat
    decreases |list|
  {
    if list == [] then 0
    else
      var last := list[|list| - 1];
      HeldCallbacks(list[..|list| - 1], topic) +
        (if !TopicMatch(last.topic, topic) then 0
         else (if last.callback.Some? then 1 else 0) + (if last.callbackWithTopic.Some? then 1 else 0))
  }
}
