/** `trigger.py`: when evidence acquisition fires, with a cooldown per attack type. */
module Trigger {
  import opened Prelude
  import opened ModelEngine

  const CONFIDENCE_THRESHOLD: real := 0.80
  const COOLDOWN_SECONDS: real := 30.0

  /** One question put to the trigger; `now` is the real clock when it is asked. */
  datatype Event = Event(name: Label, confidence: real, now: real)

  predicate Eligible(e: Event)
  {
    e.name != Benign && !(e.confidence < CONFIDENCE_THRESHOLD)
  }

  type Fired = map<Label, real>

  function Decide(last: Fired, e: Event): (r: (bool, Fired))
  {
    if !Eligible(e) then (false, last)
    else if e.now - (if e.name in last then last[e.name] else 0.0) < COOLDOWN_SECONDS then (false, last)
    else (true, last[e.name := e.now])
  }

  class AcquisitionTrigger {
    var lastTriggered: Fired

    constructor ()
      ensures lastTriggered == map[]
    {
      lastTriggered := map[];
    }

    method ShouldAcquire(name: Label, confidence: real, now: real) returns (fire: bool)
      modifies this
      ensures (fire, lastTriggered) == Decide(old(lastTriggered), Event(name, confidence, now))
    {
      if name == Benign {
        return false;
      }
      if confidence < CONFIDENCE_THRESHOLD {
        return false;
      }
      var last := if name in lastTriggered then lastTriggered[name] else 0.0;
      if now - last < COOLDOWN_SECONDS {
        return false;
      }
      lastTriggered := lastTriggered[name := now];
      return true;
    }
  }

  // ------------------------------------------------------------- whole runs

  function Run(evs: seq<Event>): (last: Fired)
  {
    if evs == [] then map[] else Decide(Run(evs[..|evs| - 1]), evs[|evs| - 1]).1
  }

  predicate Fires(evs: seq<Event>, t: nat)
    requires t < |evs|
  {
    Decide(Run(evs[..t]), evs[t]).0
  }

  /** The real clock never goes back. */
  ghost predicate Forward(evs: seq<Event>)
  {
    forall s, t | 0 <= s < t < |evs| :: evs[s].now <= evs[t].now
  }

  ghost predicate FiringOf(evs: seq<Event>, s: int, name: Label)
  {
    0 <= s < |evs| && evs[s].name == name && Fires(evs, s)
  }

  lemma PrefixFires(evs: seq<Event>, n: nat, t: nat)
    requires t < n <= |evs|
    ensures Fires(evs[..n], t) == Fires(evs, t)
  {
    assert evs[..n][..t] == evs[..t];
  }

  /** `at` is the last firing time of a type, if it fired at all. */
  ghost predicate LastFiring(evs: seq<Event>, name: Label, at: Option<real>)
  {
    match at
    case None => forall s :: !FiringOf(evs, s, name)
    case Some(t) =>
      && (exists s :: FiringOf(evs, s, name) && evs[s].now == t)
      && forall s | FiringOf(evs, s, name) :: evs[s].now <= t
  }

  function Lookup(last: Fired, name: Label): (at: Option<real>)
  {
    if name in last then Some(last[name]) else None
  }

  lemma LastFiringAppend(init: seq<Event>, e: Event, name: Label, at: Option<real>)
    requires Forward(init + [e]) && LastFiring(init, name, at)
    ensures LastFiring(init + [e], name, if FiringOf(init + [e], |init|, name) then Some(e.now) else at)
  {
    var evs := init + [e];
    assert evs[..|init|] == init;
    forall s | 0 <= s < |init| ensures FiringOf(init, s, name) <==> FiringOf(evs, s, name) {
      PrefixFires(evs, |init|, s);
    }
    assert evs[|init|] == e;
    if at.Some? && !FiringOf(evs, |init|, name) {
      var s :| FiringOf(init, s, name) && init[s].now == at.value;
      assert FiringOf(evs, s, name);
    }
  }

  lemma LookupAppend(init: seq<Event>, e: Event, name: Label)
    ensures var evs := init + [e];
      Lookup(Run(evs), name) == if FiringOf(evs, |init|, name) then Some(e.now) else Lookup(Run(init), name)
  {
    var evs := init + [e];
    assert evs[..|init|] == init && evs[|init|] == e;
  }

  /** The trigger's dictionary holds, for each type that ever fired, its last firing. */
  lemma {:induction false} RunIsLastFiring(evs: seq<Event>, name: Label)
    requires Forward(evs)
    ensures LastFiring(evs, name, Lookup(Run(evs), name))
    decreases |evs|
  {
    if evs != [] {
      var init, e := evs[..|evs| - 1], evs[|evs| - 1];
      assert evs == init + [e];
      RunIsLastFiring(init, name);
      LastFiringAppend(init, e, name, Lookup(Run(init), name));
      LookupAppend(init, e, name);
    }
  }

  /** A firing is decided by the firings before it alone: an eligible event fires
      exactly when its type has not fired in the last thirty seconds, or, if its type
      never fired, when the clock itself has reached thirty seconds. */
  lemma FiresIff(evs: seq<Event>, t: nat)
    requires Forward(evs) && t < |evs|
    ensures Fires(evs, t) <==>
      && Eligible(evs[t])
      && (forall s | 0 <= s < t && FiringOf(evs, s, evs[t].name) :: evs[t].now - evs[s].now >= COOLDOWN_SECONDS)
      && ((exists s :: 0 <= s < t && FiringOf(evs, s, evs[t].name)) || evs[t].now >= COOLDOWN_SECONDS)
  {
    var init, name := evs[..t], evs[t].name;
    RunIsLastFiring(init, name);
    forall s | 0 <= s < t ensures FiringOf(init, s, name) <==> FiringOf(evs, s, name) {
      PrefixFires(evs, t, s);
    }
    if name in Run(init) {
      var s :| FiringOf(init, s, name) && init[s].now == Run(init)[name];
      assert FiringOf(evs, s, name);
    } else {
      assert forall s | 0 <= s < t :: !FiringOf(init, s, name);
    }
  }

  /** An eligible event is refused only in the shadow of a firing of its own type less
      than thirty seconds before, once the clock has passed its first thirty seconds. */
  lemma RefusalIsShadowed(evs: seq<Event>, t: nat)
    requires Forward(evs) && t < |evs| && Eligible(evs[t]) && !Fires(evs, t)
    ensures (exists s :: 0 <= s < t && FiringOf(evs, s, evs[t].name) && evs[t].now - evs[s].now < COOLDOWN_SECONDS)
         || (evs[t].now < COOLDOWN_SECONDS && forall s | 0 <= s < t :: !FiringOf(evs, s, evs[t].name))
  {
    FiresIff(evs, t);
  }

  /** Firings of one type with a clock reading in [from, upto]. */
  function Firings(evs: seq<Event>, name: Label, from: real, upto: real): (n: nat)
  {
    if evs == [] then 0
    else
      var t := |evs| - 1;
      Firings(evs[..t], name, from, upto)
      + if evs[t].name == name && from <= evs[t].now <= upto && Fires(evs, t) then 1 else 0
  }

  lemma {:induction false} FiringsSpread(evs: seq<Event>, name: Label, from: real, upto: real) returns (last: nat)
    requires Forward(evs)
    ensures Firings(evs, name, from, upto) > 0 ==>
      && FiringOf(evs, last, name) && from <= evs[last].now <= upto
      && COOLDOWN_SECONDS * (Firings(evs, name, from, upto) - 1) as real <= evs[last].now - from
    decreases |evs|
  {
    last := 0;
    if evs != [] {
      var t := |evs| - 1;
      last := FiringsSpread(evs[..t], name, from, upto);
      if Firings(evs[..t], name, from, upto) > 0 {
        PrefixFires(evs, t, last);
      }
      if FiringOf(evs, t, name) && from <= evs[t].now <= upto {
        FiresIff(evs, t);
        last := t;
      }
    }
  }

  /** One attack type fires at most floor(T/30)+1 times in any T seconds. */
  lemma CooldownRate(evs: seq<Event>, name: Label, from: real, length: real)
    requires Forward(evs) && length >= 0.0
    ensures Firings(evs, name, from, from + length) <= (length / COOLDOWN_SECONDS).Floor + 1
  {
    var last := FiringsSpread(evs, name, from, from + length);
    var n := Firings(evs, name, from, from + length);
    if n > 0 {
      assert (n - 1) as real <= length / COOLDOWN_SECONDS;
    }
  }
}
