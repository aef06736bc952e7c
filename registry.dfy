/** The subscriber list of an event, as a value.

    `SubscribableEvent` keeps its subscribers in an ordered list of callbacks.
    Callbacks are compared by identity only, so they are modelled by any type
    with equality. This module gives the list operations the event performs on
    that list (append, lodash `pull`, clear) their meaning, and states what
    `pull` promises: every identical element goes, the rest stay in order. */
module Registry {

  /** lodash `pull(list, c)`: removes every element identical to `c`, keeping
      the other elements in their relative order. */
  function Pull<F(==)>(s: seq<F>, c: F): (r: seq<F>)
    ensures c !in r
    ensures forall i :: 0 <= i < |s| && s[i] != c ==> s[i] in r
    ensures forall k :: 0 <= k < |r| ==> r[k] in s
    ensures |r| <= |s|
  {
    if s == [] then []
    else if s[0] == c then Pull(s[1..], c)
    else [s[0]] + Pull(s[1..], c)
  }

  /** Pulling from a concatenation pulls from each part: removal never
      reorders what it keeps. */
  lemma {:induction false} PullAppend<F>(a: seq<F>, b: seq<F>, c: F)
    ensures Pull(a + b, c) == Pull(a, c) + Pull(b, c)
  {
    if a != [] {
      assert (a + b)[1..] == a[1..] + b;
      PullAppend(a[1..], b, c);
    } else {
      assert a + b == b;
    }
  }

  /** What survives a pull: no occurrence of `c`, every other callback
      with exactly as many occurrences as before. */
  lemma {:induction false} PullMultiset<F>(s: seq<F>, c: F)
    ensures multiset(Pull(s, c)) == multiset(s)[c := 0]
  {
    if s != [] {
      var tail := s[1..];
      PullMultiset(tail, c);
      assert s == [s[0]] + tail;
      assert multiset(s) == multiset{s[0]} + multiset(tail);
      if s[0] != c {
        assert Pull(s, c) == [s[0]] + Pull(tail, c);
        assert multiset(Pull(s, c)) == multiset{s[0]} + multiset(Pull(tail, c));
      }
    }
  }

  /** Pulling a callback that is not registered changes nothing. */
  lemma {:induction false} PullAbsent<F>(s: seq<F>, c: F)
    requires c !in s
    ensures Pull(s, c) == s
  {
    if s != [] {
      assert s[0] != c;
      assert c !in s[1..];
      PullAbsent(s[1..], c);
    }
  }

  /** Pulling twice has the effect of pulling once. */
  lemma {:induction false} PullIdempotent<F>(s: seq<F>, c: F)
    ensures Pull(Pull(s, c), c) == Pull(s, c)
  {
    PullAbsent(Pull(s, c), c);
  }

  /** Pulling other callbacks in either order gives the same list. */
  lemma {:induction false} PullCommutes<F>(s: seq<F>, a: F, b: F)
    ensures Pull(Pull(s, a), b) == Pull(Pull(s, b), a)
  {
    if s != [] {
      PullCommutes(s[1..], a, b);
    }
  }

  /** A subscribe followed by an unsubscribe of the same callback removes
      its earlier registrations as well, so it restores the list only when
      the callback was not registered before. */
  lemma {:induction false} PullAfterPush<F>(s: seq<F>, c: F)
    ensures Pull(s + [c], c) == Pull(s, c)
    ensures c !in s ==> Pull(s + [c], c) == s
  {
    PullAppend(s, [c], c);
    assert Pull([c], c) == [];
    assert Pull(s, c) + [] == Pull(s, c);
    if c !in s {
      PullAbsent(s, c);
    }
  }

  /** A change a subscriber callback makes to the same event while it is
      being fired. */
  datatype Action<F> =
    | Subscribing(callback: F)
    | Unsubscribing(callback: F)
    | Disposing

  /** The list after one action: push at the end, pull, or clear. */
  function Applied<F(==)>(s: seq<F>, a: Action<F>): seq<F>
  {
    match a
    case Subscribing(c) => s + [c]
    case Unsubscribing(c) => Pull(s, c)
    case Disposing => []
  }

  /** The list after a sequence of actions, taken in order. */
  function AppliedAll<F(==)>(s: seq<F>, acts: seq<Action<F>>): seq<F>
  {
    if acts == [] then s
    else Applied(AppliedAll(s, acts[..|acts| - 1]), acts[|acts| - 1])
  }

  /** The list after the callbacks `invoked` have run in order, each making
      the changes `effects` gives for it. */
  function AfterHandlers<F(==)>(s: seq<F>, invoked: seq<F>, effects: F -> seq<Action<F>>): seq<F>
  {
    if invoked == [] then s
    else AppliedAll(AfterHandlers(s, invoked[..|invoked| - 1], effects), effects(invoked[|invoked| - 1]))
  }

  /** One more callback run: its changes come after all earlier ones. */
  lemma AfterOneMore<F>(s: seq<F>, invoked: seq<F>, f: F, effects: F -> seq<Action<F>>)
    ensures AfterHandlers(s, invoked + [f], effects) == AppliedAll(AfterHandlers(s, invoked, effects), effects(f))
  {
  }

  /** Callbacks that leave the event alone leave the list as the dispatch
      found it. */
  lemma {:induction false} AfterQuietHandlers<F>(s: seq<F>, invoked: seq<F>, effects: F -> seq<Action<F>>)
    requires forall f :: effects(f) == []
    ensures AfterHandlers(s, invoked, effects) == s
  {
    if invoked != [] {
      AfterQuietHandlers(s, invoked[..|invoked| - 1], effects);
    }
  }
}
