/**
 The one-pass merge at the heart of "ctl_mboxlist -m": the queue of names MUPDATE
 places on this host is consumed while the local database is walked, and a name is
 recognised only when it is at the head of the queue at that moment.
 */
module Merge {
  import opened KeyOrder

  /** The members of `keys` that `s` lists, in the order of `s`. */
  function Restrict(s: seq<string>, keys: set<string>): (r: seq<string>)
    ensures forall k :: k in r <==> k in s && k in keys
  {
    if s == [] then []
    else (if s[0] in keys then [s[0]] else []) + Restrict(s[1..], keys)
  }

  /** The names the walk over `order` recognises with `queue` as the activate queue. */
  function Matched(queue: seq<string>, order: seq<string>): (m: set<string>)
    ensures forall k :: k in m ==> k in queue && k in order
    decreases order
  {
    if order == [] then {}
    else if queue != [] && queue[0] == order[0] then {order[0]} + Matched(queue[1..], order[1..])
    else Matched(queue, order[1..])
  }

  ghost predicate Distinct(s: seq<string>) {
    forall i, j :: 0 <= i < j < |s| ==> s[i] != s[j]
  }

  /** The queue lists its names in the relative order in which the database walk meets them. */
  ghost predicate InWalkOrder(queue: seq<string>, order: seq<string>) {
    queue == Restrict(order, set k | k in queue)
  }

  lemma {:induction false} RestrictSame(s: seq<string>, a: set<string>, b: set<string>)
    requires forall k :: k in s ==> (k in a <==> k in b)
    ensures Restrict(s, a) == Restrict(s, b)
  {
    if s != [] {
      assert forall k :: k in s[1..] ==> k in s;
      RestrictSame(s[1..], a, b);
    }
  }

  /** Every queued name is recognised exactly when the queue is in walk order. */
  lemma {:induction false} AllMatchedIffInWalkOrder(queue: seq<string>, order: seq<string>)
    requires Distinct(queue) && Distinct(order)
    requires forall k :: k in queue ==> k in order
    ensures (forall k :: k in queue ==> k in Matched(queue, order)) <==> InWalkOrder(queue, order)
    decreases order
  {
    assert queue == [] || queue[0] in order;
    if order != [] {
      var rest := order[1..];
      var keys := set k | k in queue;
      if queue != [] && queue[0] == order[0] {
        var tail := queue[1..];
        assert queue == [queue[0]] + tail;
        assert forall k :: k in tail ==> k in queue && k != order[0];
        forall k | k in tail ensures k in rest {
          assert k in order;
        }
        assert Distinct(tail) && Distinct(rest);
        AllMatchedIffInWalkOrder(tail, rest);
        var tailKeys := set k | k in tail;
        RestrictSame(rest, keys, tailKeys);
        assert Restrict(order, keys) == [order[0]] + Restrict(rest, keys);
      } else if order[0] in queue {
        // The head of the queue is somewhere else, so order[0] can never be recognised.
        assert order[0] !in rest;
        assert order[0] !in Matched(queue, order);
        assert Restrict(order, keys)[0] == order[0];
      } else {
        forall k | k in queue ensures k in rest {
          assert k in order;
        }
        AllMatchedIffInWalkOrder(queue, rest);
      }
    }
  }

  /** Two listings in the same strict order satisfy the condition, so the merge is complete. */
  lemma {:induction false} SameOrderIsWalkOrder(queue: seq<string>, order: seq<string>)
    requires Increasing(queue) && Increasing(order)
    requires forall k :: k in queue ==> k in order
    ensures InWalkOrder(queue, order)
    decreases order
  {
    assert queue == [] || queue[0] in order;
    if order != [] {
      var rest := order[1..];
      var keys := set k | k in queue;
      if order[0] in queue {
        if queue[0] != order[0] {
          assert queue[0] in order;
          BeforeTransitive(queue[0], order[0], queue[0]);
          BeforeIrreflexive(queue[0]);
        }
        var tail := queue[1..];
        assert queue == [queue[0]] + tail;
        forall k | k in tail ensures k in rest {
          assert k in queue && Before(queue[0], k);
          BeforeIrreflexive(k);
          assert k in order;
        }
        SameOrderIsWalkOrder(tail, rest);
        forall k | k in rest ensures k in keys <==> k in tail {
          BeforeIrreflexive(k);
        }
        RestrictSame(rest, keys, set k | k in tail);
      } else {
        forall k | k in queue ensures k in rest {
          assert k in order;
        }
        SameOrderIsWalkOrder(queue, rest);
        assert Restrict(order, keys) == Restrict(rest, keys);
      }
    }
  }

  lemma {:induction false} RestrictKeepsIncreasing(s: seq<string>, keys: set<string>)
    requires Increasing(s)
    ensures Increasing(Restrict(s, keys))
  {
    if s != [] {
      RestrictKeepsIncreasing(s[1..], keys);
      var r := Restrict(s[1..], keys);
      assert forall j :: 0 <= j < |r| ==> r[j] in s[1..];
      assert forall k :: k in s[1..] ==> Before(s[0], k);
    }
  }

  lemma {:induction false} RestrictKeepsDistinct(s: seq<string>, keys: set<string>)
    requires Distinct(s)
    ensures Distinct(Restrict(s, keys))
  {
    if s != [] {
      RestrictKeepsDistinct(s[1..], keys);
      var r := Restrict(s[1..], keys);
      assert forall j :: 0 <= j < |r| ==> r[j] in s[1..];
    }
  }
}
