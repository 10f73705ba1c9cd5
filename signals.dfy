/**
 * The process-wide signal helper (`sendValue` / `waitForValue`) seen as an
 * ordered log of everything published, each entry tagged with its topic
 * string. The helper's retention window and timer live outside this model:
 * what a waiter receives is an input, a `WaitResult`.
 */
module Signals {
  /** One `sendValue(topic, value)` call. */
  datatype Sent<V> = Sent(topic: string, value: V)

  /** What an awaited `waitForValue` resolves with: a published value or the timeout sentinel. */
  datatype WaitResult<T> = TimedOut | Received(value: T)

  /** The values published on `topic`, oldest first. */
  function History<V>(log: seq<Sent<V>>, topic: string): (h: seq<V>)
    ensures |h| <= |log|
  {
    if log == [] then []
    else
      History(log[..|log| - 1], topic)
      + (if log[|log| - 1].topic == topic then [log[|log| - 1].value] else [])
  }

  /** Reading one topic of a log split in two is reading it in each part, in order. */
  lemma {:induction false} HistoryAppend<V>(a: seq<Sent<V>>, b: seq<Sent<V>>, topic: string)
    ensures History(a + b, topic) == History(a, topic) + History(b, topic)
    decreases |b|
  {
    if b == [] {
      assert a + b == a;
    } else {
      var b' := b[..|b| - 1];
      assert (a + b)[..|a + b| - 1] == a + b';
      HistoryAppend(a, b', topic);
    }
  }

  /** Entries appended on topics other than `t` leave what `t` has seen unchanged. */
  lemma {:induction false} HistoryIgnoresOtherTopics<V>(log: seq<Sent<V>>, extra: seq<Sent<V>>, t: string)
    requires forall i :: 0 <= i < |extra| ==> extra[i].topic != t
    ensures History(log + extra, t) == History(log, t)
  {
    HistoryAppend(log, extra, t);
    NoEntriesOnTopic(extra, t);
  }

  lemma {:induction false} NoEntriesOnTopic<V>(extra: seq<Sent<V>>, t: string)
    requires forall i :: 0 <= i < |extra| ==> extra[i].topic != t
    ensures History(extra, t) == []
    decreases |extra|
  {
    if extra != [] {
      NoEntriesOnTopic(extra[..|extra| - 1], t);
    }
  }

  /** The shared signal bus: one instance stands for the helper's global state. */
  class SignalBus<V> {
    var log: seq<Sent<V>>

    constructor ()
      ensures log == []
    {
      log := [];
    }

    /** `sendValue(topic, v)`: append one publication, touching nothing else. */
    method SendValue(topic: string, v: V)
      modifies this
      ensures log == old(log) + [Sent(topic, v)]
    {
      log := log + [Sent(topic, v)];
    }
  }
}
