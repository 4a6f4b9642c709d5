/**
  The client's rate-limiting and caching wrappers: `memoize`, `throttle` and
  `debounce`. Each closes over mutable state, so each is a class whose fields
  are that state. The wrapped function's invocations are recorded in a ghost
  log; the expiry of a timer is an explicit `Fire` call, and the wait time
  itself is left abstract.

  Beside each timer class, a step function gives the same transitions on
  values, so that properties of whole event sequences can be proved by
  induction.
 */
module Performance {
  import opened Js

  // ---------------------------------------------------------------------
  // memoize

  /**
    A memoised `fn`: results are cached under `key(args)`, the model of
    `JSON.stringify(args)`, so argument lists that serialise alike share one
    entry.
   */
  class Memoized<A, R> {
    const fn: A -> R
    const key: A -> string
    var cache: map<string, R>
    /** The arguments `fn` has been invoked with, in order. */
    ghost var invocations: seq<A>

    ghost predicate Valid()
      reads this
    {
      && (forall i, j :: 0 <= i < j < |invocations| ==> key(invocations[i]) != key(invocations[j]))
      && (forall i :: 0 <= i < |invocations| ==> key(invocations[i]) in cache && cache[key(invocations[i])] == fn(invocations[i]))
      && (forall k :: k in cache ==> exists i :: 0 <= i < |invocations| && key(invocations[i]) == k)
    }

    constructor (fn: A -> R, key: A -> string)
      ensures Valid() && this.fn == fn && this.key == key
      ensures cache == map[] && invocations == []
    {
      this.fn, this.key := fn, key;
      cache, invocations := map[], [];
    }

    /** The memoised function: a cache hit returns the stored result without calling fn. */
    method Call(args: A) returns (r: R)
      requires Valid()
      modifies this
      ensures Valid()
      ensures key(args) in old(cache) ==>
        r == old(cache)[key(args)] && cache == old(cache) && invocations == old(invocations)
      ensures key(args) !in old(cache) ==>
        r == fn(args) && cache == old(cache)[key(args) := r] && invocations == old(invocations) + [args]
      ensures key(args) in cache && cache[key(args)] == r
    {
      var k := key(args);
      if k in cache {
        return cache[k];
      }
      r := fn(args);
      ghost var prev := invocations;
      cache := cache[k := r];
      invocations := invocations + [args];
      forall k' | k' in cache
        ensures exists i :: 0 <= i < |invocations| && key(invocations[i]) == k'
      {
        if k' == k {
          assert key(invocations[|prev|]) == k';
        } else {
          var i :| 0 <= i < |prev| && key(prev[i]) == k';
          assert invocations[i] == prev[i];
        }
      }
    }

    /** fn has run at most once per key, and every cached result is fn of the arguments that first produced that key. */
    lemma AtMostOncePerKey(args: A)
      requires Valid()
      ensures key(args) in cache <==> exists i :: 0 <= i < |invocations| && key(invocations[i]) == key(args)
      ensures key(args) in cache ==> exists i :: 0 <= i < |invocations| && key(invocations[i]) == key(args)
                                                  && cache[key(args)] == fn(invocations[i])
      ensures forall i, j ::
                (0 <= i < |invocations| && 0 <= j < |invocations| &&
                 key(invocations[i]) == key(args) && key(invocations[j]) == key(args)) ==> i == j
    {
    }
  }

  // ---------------------------------------------------------------------
  // Timer events

  datatype Event<A> = Invoke(args: A) | Fire

  function CountFires<A>(events: seq<Event<A>>): nat {
    if events == [] then 0
    else CountFires(events[..|events| - 1]) + (if events[|events| - 1].Fire? then 1 else 0)
  }

  // ---------------------------------------------------------------------
  // throttle

  /** One throttle transition: the new `inThrottle` flag and the invocations of func it makes. */
  function ThrottleStep<A>(inThrottle: bool, e: Event<A>): (bool, seq<A>) {
    match e
    case Invoke(args) => if inThrottle then (true, []) else (true, [args])
    case Fire => (false, [])
  }

  /** A timer can only fire while one is pending, that is while the throttle is closed. */
  predicate ThrottleTimerPending<A>(inThrottle: bool, e: Event<A>) {
    e.Fire? ==> inThrottle
  }

  /** The flag and the invocations after a sequence of events. */
  function ThrottleRun<A>(inThrottle: bool, events: seq<Event<A>>): (bool, seq<A>) {
    if events == [] then (inThrottle, [])
    else
      var (flag, calls) := ThrottleRun(inThrottle, events[..|events| - 1]);
      var (flag', more) := ThrottleStep(flag, events[|events| - 1]);
      (flag', calls + more)
  }

  /** Every Fire in the sequence happens while a timer is pending. */
  predicate ThrottleWellTimed<A>(inThrottle: bool, events: seq<Event<A>>) {
    events == [] ||
    (ThrottleWellTimed(inThrottle, events[..|events| - 1])
     && ThrottleTimerPending(ThrottleRun(inThrottle, events[..|events| - 1]).0, events[|events| - 1]))
  }

  /**
    At most one invocation per window: starting open, func has run exactly
    once per timer expiry so far, plus once more if a window is still open.
   */
  lemma {:induction false} ThrottleOncePerWindow<A>(events: seq<Event<A>>)
    requires ThrottleWellTimed(false, events)
    ensures var (flag, calls) := ThrottleRun(false, events);
      |calls| == CountFires(events) + (if flag then 1 else 0)
  {
    if events != [] {
      ThrottleOncePerWindow(events[..|events| - 1]);
    }
  }

  class Throttled<A> {
    var inThrottle: bool
    ghost var invocations: seq<A>

    constructor ()
      ensures !inThrottle && invocations == []
    {
      inThrottle, invocations := false, [];
    }

    /** The throttled function: runs func and closes the throttle, or drops the call while closed. */
    method Call(args: A)
      modifies this
      ensures inThrottle
      ensures invocations == if old(inThrottle) then old(invocations) else old(invocations) + [args]
      ensures (inThrottle, invocations) == (ThrottleStep(old(inThrottle), Invoke(args)).0,
                                            old(invocations) + ThrottleStep(old(inThrottle), Invoke(args)).1)
    {
      if !inThrottle {
        invocations := invocations + [args];
        inThrottle := true;
      } else {
        assert invocations == invocations + [];
      }
    }

    /** The timer set by the last invocation expires and reopens the throttle. */
    method Fire()
      requires inThrottle
      modifies this
      ensures !inThrottle && invocations == old(invocations)
      ensures (inThrottle, invocations) == (ThrottleStep(old(inThrottle), Event<A>.Fire).0,
                                            old(invocations) + ThrottleStep(old(inThrottle), Event<A>.Fire).1)
    {
      inThrottle := false;
      assert invocations == invocations + [];
    }
  }

  // ---------------------------------------------------------------------
  // debounce

  /** One debounce transition: the pending timer's arguments and the invocations of func it makes. */
  function DebounceStep<A>(pending: Option<A>, e: Event<A>): (Option<A>, seq<A>) {
    match e
    case Invoke(args) => (Some(args), [])
    case Fire => if pending.Some? then (None, [pending.value]) else (None, [])
  }

  function DebounceRun<A>(pending: Option<A>, events: seq<Event<A>>): (Option<A>, seq<A>) {
    if events == [] then (pending, [])
    else
      var (p, calls) := DebounceRun(pending, events[..|events| - 1]);
      var (p', more) := DebounceStep(p, events[|events| - 1]);
      (p', calls + more)
  }

  function Invokes<A>(argsList: seq<A>): (r: seq<Event<A>>)
    ensures |r| == |argsList|
    ensures forall i :: 0 <= i < |r| ==> r[i] == Invoke(argsList[i])
  {
    seq(|argsList|, i requires 0 <= i < |argsList| => Invoke(argsList[i]))
  }

  /** A burst of calls invokes nothing and leaves only the last call's arguments pending. */
  lemma {:induction false} DebounceBurst<A>(pending: Option<A>, argsList: seq<A>)
    requires argsList != []
    ensures DebounceRun(pending, Invokes(argsList)) == (Some(argsList[|argsList| - 1]), [])
  {
    var evs := Invokes(argsList);
    if |argsList| > 1 {
      assert evs[..|evs| - 1] == Invokes(argsList[..|argsList| - 1]);
      DebounceBurst(pending, argsList[..|argsList| - 1]);
    } else {
      assert evs[..0] == [];
      assert DebounceRun(pending, evs[..0]) == (pending, []);
      assert evs[0] == Invoke(argsList[0]);
      assert DebounceRun(pending, evs) == (Some(argsList[0]), [] + []);
      var e: seq<A> := [];
      assert e + e == e;
      assert DebounceRun(pending, evs) == (Some(argsList[|argsList| - 1]), e);
    }
  }

  /** When the timer fires after a burst, func runs exactly once, with the last call's arguments. */
  lemma DebounceRunsLastCall<A>(pending: Option<A>, argsList: seq<A>)
    requires argsList != []
    ensures DebounceRun(pending, Invokes(argsList) + [Fire]) == (None, [argsList[|argsList| - 1]])
  {
    var evs := Invokes(argsList) + [Fire];
    assert evs[..|evs| - 1] == Invokes(argsList);
    assert evs[|evs| - 1] == Fire;
    DebounceBurst(pending, argsList);
    var last := argsList[|argsList| - 1];
    assert DebounceStep(Some(last), Fire) == (None, [last]);
    var e: seq<A> := [];
    assert DebounceRun(pending, evs) == (None, e + [last]);
    assert e + [last] == [last];
  }

  class Debounced<A> {
    /** The pending timer, holding the arguments its callback will pass to func. */
    var timeout: Option<A>
    ghost var invocations: seq<A>

    constructor ()
      ensures timeout.None? && invocations == []
    {
      timeout, invocations := None, [];
    }

    /** The debounced function: cancels the pending timer and schedules one with these arguments. */
    method Call(args: A)
      modifies this
      ensures timeout == Some(args) && invocations == old(invocations)
      ensures (timeout, invocations) == (DebounceStep(old(timeout), Invoke(args)).0,
                                         old(invocations) + DebounceStep(old(timeout), Invoke(args)).1)
    {
      timeout := Some(args);
      assert invocations == invocations + [];
    }

    /** The pending timer expires: func runs once with the arguments of the call that scheduled it. */
    method Fire()
      requires timeout.Some?
      modifies this
      ensures timeout.None? && invocations == old(invocations) + [old(timeout).value]
      ensures (timeout, invocations) == (DebounceStep(old(timeout), Event<A>.Fire).0,
                                         old(invocations) + DebounceStep(old(timeout), Event<A>.Fire).1)
    {
      invocations := invocations + [timeout.value];
      timeout := None;
    }
  }
}
