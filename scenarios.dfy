/** Whole-object scenarios of `SubscribableEvent`: the documented behaviours,
    driven through the class's methods on callbacks named by small numbers. */
module Scenarios {
  import opened Registry
  import opened Firing
  import opened Events

  /** Subscribers 1, 2, 3 without stop propagation: 3, 2 and 1 run once
      each, in that order, and the fire reports `false` whatever they return. */
  method ReverseOrder(truthy: int -> bool) returns (handled: bool, invoked: seq<int>)
    ensures invoked == [3, 2, 1] && !handled
  {
    var e := new SubscribableEvent<int>();
    var _ := e.Subscribe(1);
    var _ := e.Subscribe(2);
    var _ := e.Subscribe(3);
    assert e.subscribers == [1, 2, 3] && !e.allowStopPropagation;
    DispatchAll([1, 2, 3], false, truthy);
    assert Reversed([1, 2, 3]) == [3, 2, 1];
    handled, invoked := e.Fire(truthy, _ => []);
  }

  /** Subscribers 1, 2, 3 with stop propagation, where only 2 returns a
      truthy value: 3 runs, then 2 halts the fire, 1 never runs, and the
      fire reports `true`. */
  method StopPropagation() returns (handled: bool, invoked: seq<int>)
    ensures invoked == [3, 2] && handled
  {
    var e := new SubscribableEvent<int>(true);
    var _ := e.Subscribe(1);
    var _ := e.Subscribe(2);
    var _ := e.Subscribe(3);
    DispatchStopsAt([1, 2, 3], x => x == 2, 1);
    assert [1, 2, 3][1..] == [2, 3];
    handled, invoked := e.Fire(x => x == 2, _ => []);
  }

  /** A callback that subscribes another one while it runs: the newcomer is
      not invoked by that fire, only by the next, where it runs first. */
  method ReentrantSubscribe() returns (first: seq<int>, second: seq<int>)
    ensures first == [1] && second == [2, 1]
  {
    var e := new SubscribableEvent<int>();
    var _ := e.Subscribe(1);
    var effects: int -> seq<Action<int>> := x => if x == 1 then [Subscribing(2)] else [];
    assert e.subscribers == [1] && !e.allowStopPropagation;
    DispatchAll([1], false, _ => false);
    assert Reversed([1]) == [1];
    var _, invoked := e.Fire(_ => false, effects);
    first := invoked;
    assert e.subscribers == [1, 2] by {
      assert effects(1) == [Subscribing(2)];
      assert [1][..0] == [] && [Subscribing(2)][..0] == [];
      assert AfterHandlers([1], [], effects) == [1];
      assert AppliedAll([1], [Subscribing(2)]) == [1, 2];
    }
    DispatchAll([1, 2], false, _ => false);
    assert Reversed([1, 2]) == [2, 1];
    var _, again := e.Fire(_ => false, _ => []);
    second := again;
  }

  /** Callback 1 registered twice around callback 2: one unsubscribe removes
      both registrations, and the next fire invokes only 2. */
  method UnsubscribeAllOccurrences() returns (invoked: seq<int>)
    ensures invoked == [2]
  {
    var e := new SubscribableEvent<int>();
    var _ := e.Subscribe(1);
    var _ := e.Subscribe(2);
    var _ := e.Subscribe(1);
    assert e.subscribers == [1, 2, 1];
    e.Unsubscribe(1);
    assert e.subscribers == [2] by {
      assert [1][1..] == [];
      assert Pull([1], 1) == [];
      assert [2, 1][1..] == [1];
      assert Pull([2, 1], 1) == [2];
      assert [1, 2, 1][1..] == [2, 1];
    }
    DispatchAll([2], false, _ => false);
    var _, fired := e.Fire(_ => false, _ => []);
    invoked := fired;
  }

  /** Unsubscribing through the same token twice: the second call finds the
      callback gone and leaves the list as the first call did. */
  method TokenUnsubscribeTwice() returns (once: seq<int>, twice: seq<int>)
    ensures once == twice == [2]
  {
    var e := new SubscribableEvent<int>();
    var token := e.Subscribe(1);
    var _ := e.Subscribe(2);
    token.Unsubscribe();
    assert e.subscribers == [2] by {
      assert [1, 2][1..] == [2];
      assert [2][1..] == [];
    }
    once := e.subscribers;
    token.Unsubscribe();
    PullAbsent(once, 1);
    twice := e.subscribers;
  }

  /** After a dispose, a fire invokes nothing and reports `false`, and the
      event still takes new subscribers. */
  method DisposeThenReuse() returns (handled: bool, invoked: seq<int>, after: seq<int>)
    ensures invoked == [] && !handled && after == [3]
  {
    var e := new SubscribableEvent<int>(true);
    var _ := e.Subscribe(1);
    var _ := e.Subscribe(2);
    e.Dispose();
    handled, invoked := e.Fire(_ => true, _ => []);
    var _ := e.Subscribe(3);
    after := e.subscribers;
  }
}
