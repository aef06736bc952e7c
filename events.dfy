/** `SubscribableEvent` and `SubscriptionToken`: the registry object that
    owns the subscriber list, and the handle `subscribe` hands back.

    Callbacks are identities of type `F`. A fire is given, for each callback,
    whether it returns a truthy value (`truthy`) and which changes it makes
    to this same event while it runs (`effects`); the fire applies those
    changes to the live list right after invoking the callback, while the
    walk itself goes over the copy taken on entry. */
module Events {
  import opened Registry
  import opened Firing

  class SubscribableEvent<F(==)> {
    /** The registered callbacks, oldest first; duplicates allowed. */
    var subscribers: seq<F>
    /** Whether a truthy callback result halts a fire. Fixed at construction. */
    const allowStopPropagation: bool

    /** A new event with no subscribers; stop propagation is off unless asked for. */
    constructor (allowStopPropagation: bool := false)
      ensures subscribers == []
      ensures this.allowStopPropagation == allowStopPropagation
    {
      this.allowStopPropagation := allowStopPropagation;
      subscribers := [];
    }

    /** Clears the list; the event stays usable. */
    method Dispose()
      modifies this`subscribers
      ensures subscribers == []
    {
      subscribers := [];
    }

    /** Appends `callback` (even if already registered) and returns a token
        bound to this event and exactly this callback. */
    method Subscribe(callback: F) returns (token: SubscriptionToken<F>)
      modifies this`subscribers
      ensures subscribers == old(subscribers) + [callback]
      ensures subscribers[..|old(subscribers)|] == old(subscribers)
      ensures fresh(token) && token.event == this && token.callback == callback
    {
      subscribers := subscribers + [callback];
      assert subscribers[..|old(subscribers)|] == old(subscribers);
      token := new SubscriptionToken(this, callback);
    }

    /** Removes every registration of `callback`; the others keep their
        order and their number of occurrences. Absent callbacks are a no-op. */
    method Unsubscribe(callback: F)
      modifies this`subscribers
      ensures subscribers == Pull(old(subscribers), callback)
      ensures callback !in subscribers
      ensures multiset(subscribers) == multiset(old(subscribers))[callback := 0]
      ensures callback !in old(subscribers) ==> subscribers == old(subscribers)
    {
      PullMultiset(subscribers, callback);
      if callback !in subscribers {
        PullAbsent(subscribers, callback);
      }
      subscribers := Pull(subscribers, callback);
    }

    /** The changes one running callback makes to this event, in order. */
    method Perform(acts: seq<Action<F>>)
      modifies this`subscribers
      ensures subscribers == AppliedAll(old(subscribers), acts)
    {
      var j := 0;
      while j < |acts|
        invariant 0 <= j <= |acts|
        invariant subscribers == AppliedAll(old(subscribers), acts[..j])
      {
        assert acts[..j + 1][..j] == acts[..j];
        match acts[j] {
          case Subscribing(c) =>
            var _ := Subscribe(c);
          case Unsubscribing(c) =>
            Unsubscribe(c);
          case Disposing =>
            Dispose();
        }
        j := j + 1;
      }
      assert acts[..|acts|] == acts;
    }

    /** Fires the event: copies the list, then invokes the copy's entries from
        the last to the first, stopping after a truthy one when stop
        propagation is allowed. `invoked` and `handled` are the dispatch over
        the list as it was on entry, whatever the callbacks change meanwhile;
        the list ends up as those changes leave it. */
    method Fire(truthy: F -> bool, effects: F -> seq<Action<F>>) returns (handled: bool, invoked: seq<F>)
      modifies this`subscribers
      ensures Outcome(invoked, handled) == Dispatch(old(subscribers), allowStopPropagation, truthy)
      ensures subscribers == AfterHandlers(old(subscribers), invoked, effects)
    {
      var subs := subscribers;
      ghost var goal := Dispatch(subs, allowStopPropagation, truthy);
      invoked := [];
      var i := |subs| - 1;
      assert subs[..i + 1] == subs;
      while i >= 0
        invariant -1 <= i < |subs|
        invariant subs == old(subscribers)
        invariant
          var rest := Dispatch(subs[..i + 1], allowStopPropagation, truthy);
          goal == Outcome(invoked + rest.invoked, rest.handled)
        invariant subscribers == AfterHandlers(subs, invoked, effects)
      {
        var f := subs[i];
        DispatchStep(subs, i, allowStopPropagation, truthy, invoked, goal);
        AfterOneMore(subs, invoked, f, effects);
        invoked := invoked + [f];
        Perform(effects(f));
        if allowStopPropagation && truthy(f) {
          return true, invoked;
        }
        i := i - 1;
      }
      assert invoked + [] == invoked;
      handled := false;
    }
  }

  /** The handle `subscribe` returns: the event it came from and the callback. */
  class SubscriptionToken<F(==)> {
    const event: SubscribableEvent<F>
    const callback: F

    constructor (event: SubscribableEvent<F>, callback: F)
      ensures this.event == event && this.callback == callback
    {
      this.event := event;
      this.callback := callback;
    }

    /** Unsubscribes the captured callback from the captured event; a second
        call finds nothing left to remove. */
    method Unsubscribe()
      modifies event`subscribers
      ensures event.subscribers == Pull(old(event.subscribers), callback)
      ensures callback !in event.subscribers
    {
      event.Unsubscribe(callback);
    }
  }
}
