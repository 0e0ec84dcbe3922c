/**
 The slice-backed notifier registry: channels that receive a duration each
 time a waiter of one kind is created. Its add, remove and deleteAt are the
 same slice code as the listener registry, so they are Listeners.Add,
 Listeners.Remove and Listeners.DeleteAt over channel identities; what is
 particular to it is `notify`, a send to every channel in slice order. The
 sends block in notify.go; here each one is a record in a delivery log.
 */
module NotifierSlices {
  import Listeners

  /** Identity of a channel of durations. */
  type Chan = nat

  /** One send of `value` on channel `ch`. */
  datatype Delivery<E> = Delivery(ch: Chan, value: E)

  /** The channels a delivery log reached, in order. */
  function Recipients<E>(log: seq<Delivery<E>>): (r: seq<Chan>)
    ensures |r| == |log|
    ensures forall k :: 0 <= k < |log| ==> r[k] == log[k].ch
  {
    if |log| == 0 then [] else [log[0].ch] + Recipients(log[1..])
  }

  /** Appending a delivery appends its channel to the recipients. */
  lemma RecipientsSnoc<E>(log: seq<Delivery<E>>, d: Delivery<E>)
    ensures Recipients(log + [d]) == Recipients(log) + [d.ch]
  {
    var r := Recipients(log + [d]);
    assert forall k :: 0 <= k < |log| ==> (log + [d])[k] == log[k];
    assert r[|log|] == d.ch;
  }

  /** Sends d on each channel of n, in slice order. */
  function Notify(n: seq<Chan>, d: int): (log: seq<Delivery<int>>)
    ensures Recipients(log) == n
    ensures forall k :: 0 <= k < |log| ==> log[k].value == d
  {
    if |n| == 0 then [] else [Delivery(n[0], d)] + Notify(n[1..], d)
  }

  /** On a duplicate-free registry every registered channel receives d exactly
      once and no other channel receives anything. */
  lemma NotifyExactlyOnce(n: seq<Chan>, d: int, ch: Chan)
    requires Listeners.NoDup(n)
    ensures multiset(Recipients(Notify(n, d)))[ch] == if ch in n then 1 else 0
  {
  }

  /** After add(ch), a notification reaches ch exactly once; the channels
      registered before keep their places in the delivery order. */
  lemma AddThenNotify(n: seq<Chan>, ch: Chan, d: int)
    requires Listeners.NoDup(n)
    ensures var log := Notify(Listeners.Add(n, ch), d);
            multiset(Recipients(log))[ch] == 1 && Recipients(log)[..|n|] == n
  {
  }

  /** After remove(ch), a notification never reaches ch and still reaches
      every other registered channel. */
  lemma RemoveThenNotify(n: seq<Chan>, ch: Chan, d: int)
    ensures var log := Notify(Listeners.Remove(n, ch), d);
            ch !in Recipients(log) &&
            forall x :: x in n && x != ch ==> x in Recipients(log)
  {
  }
}
