/**
 The set-backed notifier registry: a map from channels to true, which is
 nil until the first add. Channels, keyed by reflection in notifiers.go, are
 abstract identities here; the blocking sends of `notify` are records in a
 delivery log, made in the map's unspecified iteration order.
 */
module Notifiers {
  import opened NotifierSlices

  /** A nil map, or an allocated map whose keys are the member channels. */
  datatype Notifiers = Nil | Members(chans: set<Chan>)

  function Contents(n: Notifiers): set<Chan> {
    match n
    case Nil => {}
    case Members(s) => s
  }

  /** Inserts ch, allocating the map first if it is nil. */
  function Add(n: Notifiers, ch: Chan): (r: Notifiers)
    ensures r.Members?
    ensures Contents(r) == Contents(n) + {ch}
  {
    match n
    case Nil => Members({ch})
    case Members(s) => Members(s + {ch})
  }

  /** Adding a channel twice is the same as adding it once. */
  lemma AddIdempotent(n: Notifiers, ch: Chan)
    ensures Add(Add(n, ch), ch) == Add(n, ch)
  {
  }

  /** Deletes ch; a nil map stays nil. */
  function Remove(n: Notifiers, ch: Chan): (r: Notifiers)
    ensures Contents(r) == Contents(n) - {ch}
    ensures n.Nil? ==> r.Nil?
    ensures ch !in Contents(n) ==> Contents(r) == Contents(n)
  {
    match n
    case Nil => Nil
    case Members(s) => Members(s - {ch})
  }

  /** Removing a channel twice is the same as removing it once. */
  lemma RemoveIdempotent(n: Notifiers, ch: Chan)
    ensures Remove(Remove(n, ch), ch) == Remove(n, ch)
  {
  }

  /** Removing a channel undoes adding it, up to the allocation of the map:
      the members are those before the add, less ch. */
  lemma AddThenRemove(n: Notifiers, ch: Chan)
    ensures Remove(Add(n, ch), ch).Members?
    ensures Contents(Remove(Add(n, ch), ch)) == Contents(n) - {ch}
  {
  }

  /** One round of the send loop: sending on a member of the unsent set moves
      that member from the unsent set to the recipients. */
  lemma SendOne<E>(log: seq<Delivery<E>>, rest: set<Chan>, all: set<Chan>, ch: Chan, e: E)
    requires ch in rest
    requires multiset(Recipients(log)) + multiset(rest) == multiset(all)
    ensures multiset(Recipients(log + [Delivery(ch, e)])) + multiset(rest - {ch}) == multiset(all)
  {
    RecipientsSnoc(log, Delivery(ch, e));
    assert multiset(rest) == multiset(rest - {ch}) + multiset{ch} by {
      forall y
        ensures multiset(rest)[y] == (multiset(rest - {ch}) + multiset{ch})[y]
      {
      }
    }
    assert multiset(Recipients(log) + [ch]) == multiset(Recipients(log)) + multiset{ch};
  }

  /** Sends e on every member channel, in some order: each member receives e
      exactly once and no other channel receives anything. */
  method Notify<E>(n: Notifiers, e: E) returns (log: seq<Delivery<E>>)
    ensures multiset(Recipients(log)) == multiset(Contents(n))
    ensures forall k :: 0 <= k < |log| ==> log[k].value == e
    ensures Contents(n) == {} ==> log == []
  {
    var all := Contents(n);
    var rest := all;
    log := [];
    while rest != {}
      invariant |log| + |rest| == |all|
      invariant multiset(Recipients(log)) + multiset(rest) == multiset(all)
      invariant forall k :: 0 <= k < |log| ==> log[k].value == e
      decreases rest
    {
      var ch :| ch in rest;
      SendOne(log, rest, all, ch, e);
      log := log + [Delivery(ch, e)];
      rest := rest - {ch};
    }
  }
}
