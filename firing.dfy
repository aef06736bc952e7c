/** The dispatch rule of `SubscribableEvent.fire`, as a function of the
    snapshot of the subscriber list taken when the fire starts.

    The snapshot is walked from its last entry to its first. When stop
    propagation is allowed, the walk ends right after the first callback
    (counting from the end) whose result is truthy, and the fire reports
    that it was handled; otherwise every entry is invoked and the fire
    reports `false`. */
module Firing {

  /** The snapshot in the order the dispatch walks it: last registered first. */
  function Reversed<F>(s: seq<F>): (r: seq<F>)
    ensures |r| == |s|
    ensures forall k :: 0 <= k < |s| ==> r[k] == s[|s| - 1 - k]
  {
    if s == [] then [] else [s[|s| - 1]] + Reversed(s[..|s| - 1])
  }

  /** What one fire did: the callbacks it invoked, in order, and its result. */
  datatype Outcome<F> = Outcome(invoked: seq<F>, handled: bool)

  /** The dispatch over the snapshot `subs`; `truthy(f)` is whether callback
      `f` returns a truthy value. */
  function Dispatch<F>(subs: seq<F>, allowStop: bool, truthy: F -> bool): (r: Outcome<F>)
  {
    if subs == [] then Outcome([], false)
    else
      var last := subs[|subs| - 1];
      if allowStop && truthy(last) then Outcome([last], true)
      else
        var rest := Dispatch(subs[..|subs| - 1], allowStop, truthy);
        Outcome([last] + rest.invoked, rest.handled)
  }

  /** Whatever happens, the callbacks invoked are the reversed snapshot cut
      short, and only a truthy callback under stop propagation, invoked
      last, can make the result `true`. */
  lemma {:induction false} DispatchPrefix<F>(subs: seq<F>, allowStop: bool, truthy: F -> bool)
    ensures
      var r := Dispatch(subs, allowStop, truthy);
      |r.invoked| <= |subs| &&
      r.invoked == Reversed(subs)[..|r.invoked|] &&
      (r.handled ==> allowStop && r.invoked != [] && truthy(r.invoked[|r.invoked| - 1]))
  {
    if subs != [] {
      var init := subs[..|subs| - 1];
      DispatchPrefix(init, allowStop, truthy);
      var rest := Dispatch(init, allowStop, truthy);
      assert Reversed(subs) == [subs[|subs| - 1]] + Reversed(init);
      if !(allowStop && truthy(subs[|subs| - 1])) {
        assert ([subs[|subs| - 1]] + rest.invoked)[1..] == rest.invoked;
      }
    }
  }

  /** One step of the countdown over the snapshot: with `invoked` already
      run and entry `i` next, entry `i` is invoked, and the walk either ends
      there, handled, or resumes over the entries before `i`. */
  lemma DispatchStep<F>(subs: seq<F>, i: int, allowStop: bool, truthy: F -> bool, invoked: seq<F>, goal: Outcome<F>)
    requires 0 <= i < |subs|
    requires
      var rest := Dispatch(subs[..i + 1], allowStop, truthy);
      goal == Outcome(invoked + rest.invoked, rest.handled)
    ensures allowStop && truthy(subs[i]) ==> goal == Outcome(invoked + [subs[i]], true)
    ensures
      var rest := Dispatch(subs[..i], allowStop, truthy);
      !(allowStop && truthy(subs[i])) ==> goal == Outcome((invoked + [subs[i]]) + rest.invoked, rest.handled)
  {
    assert subs[..i + 1][..i] == subs[..i];
    var rest := Dispatch(subs[..i], allowStop, truthy);
    assert invoked + ([subs[i]] + rest.invoked) == (invoked + [subs[i]]) + rest.invoked;
  }

  /** When no callback stops the walk (stop propagation off, or no truthy
      result), every snapshot entry is invoked exactly once, last registered
      first, and the fire returns `false`. */
  lemma {:induction false} DispatchAll<F>(subs: seq<F>, allowStop: bool, truthy: F -> bool)
    requires !allowStop || forall k :: 0 <= k < |subs| ==> !truthy(subs[k])
    ensures Dispatch(subs, allowStop, truthy) == Outcome(Reversed(subs), false)
  {
    if subs != [] {
      var init := subs[..|subs| - 1];
      assert forall k :: 0 <= k < |init| ==> init[k] == subs[k];
      DispatchAll(init, allowStop, truthy);
    }
  }

  /** With stop propagation on, the walk stops at the last-registered entry
      `j` whose result is truthy: exactly the entries from `j` to the end are
      invoked, last first, those registered before `j` never are, and the
      fire returns `true`. */
  lemma {:induction false} DispatchStopsAt<F>(subs: seq<F>, truthy: F -> bool, j: int)
    requires 0 <= j < |subs| && truthy(subs[j])
    requires forall k :: j < k < |subs| ==> !truthy(subs[k])
    ensures Dispatch(subs, true, truthy) == Outcome(Reversed(subs[j..]), true)
  {
    var n := |subs|;
    if j == n - 1 {
      assert subs[j..] == [subs[j]];
    } else {
      var init := subs[..n - 1];
      assert forall k :: 0 <= k < |init| ==> init[k] == subs[k];
      DispatchStopsAt(init, truthy, j);
      assert subs[j..] == init[j..] + [subs[n - 1]];
      assert subs[j..][..|subs[j..]| - 1] == init[j..];
    }
  }

  /** With stop propagation on, the fire returns `true` exactly when some
      snapshot entry returns a truthy value. */
  lemma {:induction false} DispatchHandledIff<F>(subs: seq<F>, truthy: F -> bool)
    ensures Dispatch(subs, true, truthy).handled <==> exists k :: 0 <= k < |subs| && truthy(subs[k])
  {
    if subs != [] {
      var n := |subs|;
      var init := subs[..n - 1];
      assert forall k :: 0 <= k < |init| ==> init[k] == subs[k];
      DispatchHandledIff(init, truthy);
      if !truthy(subs[n - 1]) {
        assert (exists k :: 0 <= k < n && truthy(subs[k])) ==> exists k :: 0 <= k < |init| && truthy(init[k]);
      }
    }
  }
}
