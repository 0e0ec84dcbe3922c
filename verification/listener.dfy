/**
 The listener registry of a fake clock: a slice of waiters with an idempotent
 add, an idempotent remove, and the advance pass that calls every member once
 and swap-deletes the members that report they are finished.

 The registry is generic in the element type, because the same slice code is
 used for listeners and (in notify.go) for notifier channels.
 */
module Listeners {

  /** Every element occurs at most once. */
  ghost predicate NoDup<T(!new)>(s: seq<T>) {
    forall x :: multiset(s)[x] <= 1
  }

  /** Removes the element at index i by moving the last element into its place
      and truncating; listener.go does no bounds checking, hence the requires. */
  function DeleteAt<T(!new)>(s: seq<T>, i: nat): (r: seq<T>)
    requires i < |s|
    ensures |r| == |s| - 1
    ensures r[..i] == s[..i]
    ensures i < |r| ==> r[i] == s[|s| - 1] && r[i + 1..] == s[i + 1..|s| - 1]
    ensures multiset(r) == multiset(s) - multiset{s[i]}
  {
    var last := |s| - 1;
    var r := s[i := s[last]][..last];
    DeleteAtCount(s, i, r);
    r
  }

  /** The multiset effect of a swap-delete: exactly one copy of s[i] is gone. */
  lemma DeleteAtCount<T(!new)>(s: seq<T>, i: nat, r: seq<T>)
    requires i < |s| && r == s[i := s[|s| - 1]][..|s| - 1]
    ensures multiset(r) == multiset(s) - multiset{s[i]}
  {
    var last := |s| - 1;
    assert s == s[..i] + [s[i]] + s[i + 1..];
    if i < last {
      assert s[i + 1..] == s[i + 1..last] + [s[last]];
      assert r == s[..i] + [s[last]] + s[i + 1..last];
    } else {
      assert r == s[..i];
    }
  }

  /** The elements from index i on after a deletion at i are those that
      followed index i in the original. */
  lemma DeleteAtTail<T(!new)>(s: seq<T>, i: nat)
    requires i < |s|
    ensures multiset(s[i + 1..]) == multiset(DeleteAt(s, i)[i..])
  {
    var r := DeleteAt(s, i);
    var last := |s| - 1;
    if i < last {
      assert s[i + 1..] == s[i + 1..last] + [s[last]];
      assert r[i..] == [s[last]] + s[i + 1..last];
    } else {
      assert r[i..] == [];
    }
  }

  /** Reference definition: the members for which `done` is false, in their
      original order. */
  function Kept<T(!new)>(s: seq<T>, done: T -> bool): seq<T>
  {
    if |s| == 0 then []
    else (if done(s[0]) then [] else [s[0]]) + Kept(s[1..], done)
  }

  /** Each element occurs in the kept sequence exactly as often as in the
      original, unless it is finished, in which case not at all. */
  lemma {:induction false} KeptCount<T(!new)>(s: seq<T>, done: T -> bool, x: T)
    ensures multiset(Kept(s, done))[x] == if done(x) then 0 else multiset(s)[x]
  {
    if |s| > 0 {
      KeptCount(s[1..], done, x);
      var head := if done(s[0]) then [] else [s[0]];
      assert Kept(s, done) == head + Kept(s[1..], done);
      assert multiset(Kept(s, done))[x] == multiset(head)[x] + multiset(Kept(s[1..], done))[x];
      assert s == [s[0]] + s[1..];
      assert multiset(s)[x] == multiset([s[0]])[x] + multiset(s[1..])[x];
    }
  }

  /** Keeping the unfinished members of two permutations of each other yields
      permutations of each other. */
  lemma KeptPermutation<T(!new)>(a: seq<T>, b: seq<T>, done: T -> bool)
    requires multiset(a) == multiset(b)
    ensures multiset(Kept(a, done)) == multiset(Kept(b, done))
  {
    forall x
      ensures multiset(Kept(a, done))[x] == multiset(Kept(b, done))[x]
    {
      KeptCount(a, done, x);
      KeptCount(b, done, x);
    }
  }

  /** The result of one advance pass: the registry left behind, and the
      members whose callback was invoked, in invocation order. */
  datatype Pass<T> = Pass(remaining: seq<T>, calls: seq<T>)

  /** The dispatch loop from index i on: the member at i is called; if it is
      finished it is swap-deleted and index i is visited again (now holding the
      former last member), otherwise the loop moves on to i + 1. The prefix
      before i is never touched, every member from i on is called exactly once,
      and what is left from i on is a permutation of the unfinished ones. */
  function Sweep<T(!new)>(ls: seq<T>, i: nat, done: T -> bool): (r: Pass<T>)
    requires i <= |ls|
    ensures i <= |r.remaining| && r.remaining[..i] == ls[..i]
    ensures multiset(r.calls) == multiset(ls[i..])
    ensures multiset(r.remaining[i..]) == multiset(Kept(ls[i..], done))
    decreases |ls| - i
  {
    if i == |ls| then
      Pass(ls, [])
    else if done(ls[i]) then
      var p := Sweep(DeleteAt(ls, i), i, done);
      DeletedStep(ls, i, done, p);
      Pass(p.remaining, [ls[i]] + p.calls)
    else
      var p := Sweep(ls, i + 1, done);
      KeptStep(ls, i, done, p);
      Pass(p.remaining, [ls[i]] + p.calls)
  }

  /** The finished branch of the dispatch loop: the member at i is called and
      dropped, and the rest of the pass runs over the shrunk registry. */
  lemma DeletedStep<T(!new)>(ls: seq<T>, i: nat, done: T -> bool, p: Pass<T>)
    requires i < |ls| && done(ls[i])
    requires i <= |p.remaining| && p.remaining[..i] == DeleteAt(ls, i)[..i]
    requires multiset(p.calls) == multiset(DeleteAt(ls, i)[i..])
    requires multiset(p.remaining[i..]) == multiset(Kept(DeleteAt(ls, i)[i..], done))
    ensures p.remaining[..i] == ls[..i]
    ensures multiset([ls[i]] + p.calls) == multiset(ls[i..])
    ensures multiset(p.remaining[i..]) == multiset(Kept(ls[i..], done))
  {
    var shrunk := DeleteAt(ls, i);
    DeleteAtTail(ls, i);
    var suffix := ls[i..];
    assert suffix[0] == ls[i] && suffix[1..] == ls[i + 1..];
    assert suffix == [ls[i]] + ls[i + 1..];
    assert multiset([ls[i]] + p.calls) == multiset{ls[i]} + multiset(ls[i + 1..]);
    assert Kept(suffix, done) == Kept(ls[i + 1..], done);
    KeptPermutation(ls[i + 1..], shrunk[i..], done);
    assert p.remaining[..i] == shrunk[..i];
  }

  /** The unfinished branch of the dispatch loop: the member at i is called,
      stays where it is and joins the kept members. */
  lemma KeptStep<T(!new)>(ls: seq<T>, i: nat, done: T -> bool, p: Pass<T>)
    requires i < |ls| && !done(ls[i])
    requires i + 1 <= |p.remaining| && p.remaining[..i + 1] == ls[..i + 1]
    requires multiset(p.calls) == multiset(ls[i + 1..])
    requires multiset(p.remaining[i + 1..]) == multiset(Kept(ls[i + 1..], done))
    ensures p.remaining[..i] == ls[..i]
    ensures multiset([ls[i]] + p.calls) == multiset(ls[i..])
    ensures multiset(p.remaining[i..]) == multiset(Kept(ls[i..], done))
  {
    var rest := p.remaining;
    var suffix := ls[i..];
    assert suffix[0] == ls[i] && suffix[1..] == ls[i + 1..];
    assert Kept(suffix, done) == [ls[i]] + Kept(ls[i + 1..], done);
    assert suffix == [ls[i]] + ls[i + 1..];
    assert rest[i] == ls[i] by {
      assert rest[i] == rest[..i + 1][i];
    }
    assert rest[i..] == [rest[i]] + rest[i + 1..];
    assert rest[..i] == ls[..i] by {
      assert rest[..i] == rest[..i + 1][..i];
      assert ls[..i] == ls[..i + 1][..i];
    }
  }

  /** One advance pass over the whole registry. A member is finished when its
      callback reports Stop (`done` returns true). Every member present at
      entry is called exactly once, and the registry afterwards holds exactly
      the members that asked to continue. */
  function OnAdvance<T(!new)>(ls: seq<T>, done: T -> bool): (r: Pass<T>)
    ensures multiset(r.calls) == multiset(ls)
    ensures multiset(r.remaining) == multiset(Kept(ls, done))
    ensures forall x :: x in r.remaining <==> x in ls && !done(x)
    ensures NoDup(ls) ==> NoDup(r.remaining)
  {
    var p := Sweep(ls, 0, done);
    assert ls[0..] == ls;
    assert p.remaining[0..] == p.remaining;
    KeptMembers(ls, p.remaining, done);
    p
  }

  /** Consequence of KeptCount for any permutation of the kept members. */
  lemma KeptMembers<T(!new)>(ls: seq<T>, rest: seq<T>, done: T -> bool)
    requires multiset(rest) == multiset(Kept(ls, done))
    ensures forall x :: x in rest <==> x in ls && !done(x)
    ensures forall x :: multiset(rest)[x] <= multiset(ls)[x]
  {
    forall x
      ensures multiset(rest)[x] == if done(x) then 0 else multiset(ls)[x]
    {
      KeptCount(ls, done, x);
    }
  }

  /** A pass in which no member from index i on is finished changes nothing. */
  lemma {:induction false} SweepNoneDone<T(!new)>(ls: seq<T>, i: nat, done: T -> bool)
    requires i <= |ls|
    requires forall j :: i <= j < |ls| ==> !done(ls[j])
    ensures Sweep(ls, i, done).remaining == ls
    decreases |ls| - i
  {
    if i < |ls| {
      SweepNoneDone(ls, i + 1, done);
    }
  }

  /** Appends v unless it is already a member. */
  function Add<T(==,!new)>(ls: seq<T>, v: T): (r: seq<T>)
    ensures v in r
    ensures |ls| <= |r| && r[..|ls|] == ls
    ensures v in ls ==> r == ls
    ensures v !in ls ==> r == ls + [v]
    ensures forall x :: x in r <==> x in ls || x == v
    ensures NoDup(ls) ==> NoDup(r) && multiset(r)[v] == 1
  {
    if v in ls then ls else ls + [v]
  }

  /** Adding a member twice is the same as adding it once. */
  lemma AddIdempotent<T(!new)>(ls: seq<T>, v: T)
    ensures Add(Add(ls, v), v) == Add(ls, v)
  {
  }

  /** Deletes every occurrence of v, using the same swap-delete loop as the
      advance pass with "is v" as the finished test. */
  function Remove<T(==,!new)>(ls: seq<T>, v: T): (r: seq<T>)
    ensures multiset(r) == multiset(ls)[v := 0]
    ensures forall x :: x in r <==> x in ls && x != v
    ensures v !in ls ==> r == ls
    ensures NoDup(ls) ==> NoDup(r)
  {
    var done := x => x == v;
    var p := OnAdvance(ls, done);
    forall x
      ensures multiset(p.remaining)[x] == multiset(ls)[v := 0][x]
    {
      KeptCount(ls, done, x);
    }
    if v !in ls then
      SweepNoneDone(ls, 0, done);
      p.remaining
    else
      p.remaining
  }

  /** Removing twice is the same as removing once. */
  lemma RemoveIdempotent<T(!new)>(ls: seq<T>, v: T)
    ensures Remove(Remove(ls, v), v) == Remove(ls, v)
  {
  }

  /** Adding then removing a new member leaves the same members as before. */
  lemma AddRemoveMembers<T(!new)>(ls: seq<T>, v: T)
    requires v !in ls
    ensures multiset(Remove(Add(ls, v), v)) == multiset(ls)
  {
  }
}
