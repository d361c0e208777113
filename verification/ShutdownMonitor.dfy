/** The engine-off monitor: it asks for shutdown once the engine has run and then stood still long enough. */
module ShutdownMonitor {
  import opened Options

  datatype Config = Config(enabled: bool, armRpm: real, stopRpm: real, delay: nat)

  datatype Reading = Absent | NotFinite | Rpm(value: real)

  /** Times are clock ticks of some monotonic clock, and the delay is in the same unit. */
  datatype Observation = Observation(rpm: Reading, time: nat)

  // ----- what should happen ----------------------------------------------------

  predicate Arms(c: Config, o: Observation) {
    o.rpm.Rpm? && c.armRpm <= o.rpm.value
  }

  predicate Quiet(c: Config, o: Observation) {
    o.rpm.Rpm? && o.rpm.value < c.armRpm && o.rpm.value <= c.stopRpm
  }

  ghost predicate Monotone(s: seq<Observation>) {
    forall i, j :: 0 <= i <= j < |s| ==> s[i].time <= s[j].time
  }

  ghost predicate ArmedBefore(c: Config, s: seq<Observation>, k: nat) {
    exists a :: 0 <= a < k && a < |s| && Arms(c, s[a])
  }

  ghost predicate QuietFrom(c: Config, s: seq<Observation>, k: nat, end: nat) {
    k < end <= |s| && forall j :: k <= j < end ==> Quiet(c, s[j])
  }

  /** An unbroken quiet stretch from `k` to observation `i`, after some arming, has lasted the delay. */
  ghost predicate LastedFrom(c: Config, s: seq<Observation>, i: nat, k: nat)
    requires i < |s|
  {
    ArmedBefore(c, s, k) && QuietFrom(c, s, k, i + 1) && s[k].time + c.delay <= s[i].time
  }

  ghost predicate Due(c: Config, s: seq<Observation>, i: nat)
    requires i < |s|
  {
    exists k: nat :: LastedFrom(c, s, i, k)
  }

  ghost predicate Fires(c: Config, s: seq<Observation>, i: nat)
    requires i < |s|
  {
    c.enabled && Due(c, s, i) && forall h: nat | h < i :: !Due(c, s, h)
  }

  // ----- the monitor -----------------------------------------------------------

  class Monitor {
    const config: Config
    var armed: bool
    var stoppedSince: Option<nat>
    var requested: bool
    ghost var seen: seq<Observation>

    constructor (c: Config)
      ensures Valid() && config == c && seen == []
    {
      config := c;
      armed, stoppedSince, requested := false, None, false;
      seen := [];
    }

    /** The fields sum up what was seen so far. */
    ghost predicate Valid() reads this {
      && Monotone(seen)
      && (requested <==> config.enabled && exists h: nat | h < |seen| :: Due(config, seen, h))
      && (config.enabled && !requested ==>
            && (armed <==> ArmedBefore(config, seen, |seen|))
            && match stoppedSince
               case None => seen == [] || !armed || !Quiet(config, seen[|seen| - 1])
               case Some(t) => exists k: nat :: Stretch(config, seen, k) && seen[k].time == t)
    }

    method Observe(rpm: Reading, now: nat) returns (fire: bool)
      requires Valid()
      requires forall o <- seen :: o.time <= now
      modifies this
      ensures Valid() && seen == old(seen) + [Observation(rpm, now)]
      ensures fire == Fires(config, seen, |seen| - 1)
    {
      hide Monotone, Due, ArmedBefore, QuietFrom, Stretch;
      ghost var was, o := seen, Observation(rpm, now);
      seen := seen + [o];
      Extends(config, was, o);
      if !config.enabled || requested { return false; }
      if !rpm.Rpm? {
        stoppedSince := None;
        NotDue(config, was, o);
        return false;
      }
      if rpm.value >= config.armRpm {
        armed := true;
        stoppedSince := None;
        NotDue(config, was, o);
        return false;
      }
      if !armed || rpm.value > config.stopRpm {
        stoppedSince := None;
        NotDue(config, was, o);
        return false;
      }
      var since := match stoppedSince case None => now case Some(t) => t;
      ghost var k := StretchGrows(config, was, o, stoppedSince);
      stoppedSince := Some(since);
      StretchDecides(config, seen, k);
      if Elapsed(since, now) >= config.delay {
        requested := true;
        assert Due(config, seen, |seen| - 1);
        return true;
      }
      fire := false;
    }
  }

  /** Time from one instant to another, never negative. */
  function Elapsed(since: nat, now: nat): nat {
    if since <= now then now - since else 0
  }

  /** `k` starts the quiet stretch that is still going on: it begins right after a reading that was not quiet. */
  ghost predicate Stretch(c: Config, s: seq<Observation>, k: nat) {
    0 < k && QuietFrom(c, s, k, |s|) && ArmedBefore(c, s, k) && !Quiet(c, s[k - 1])
  }

  lemma Extends(c: Config, s: seq<Observation>, o: Observation)
    requires Monotone(s) && forall p <- s :: p.time <= o.time
    ensures Monotone(s + [o])
    ensures forall h: nat | h < |s| :: Due(c, s + [o], h) <==> Due(c, s, h)
    ensures ArmedBefore(c, s + [o], |s| + 1) <==> ArmedBefore(c, s, |s|) || Arms(c, o)
    ensures forall h: nat | h < |s| :: Fires(c, s + [o], h) <==> Fires(c, s, h)
  {
    var t := s + [o];
    assert t[|s|] == o;
    assert forall a | 0 <= a < |s| :: t[a] == s[a] && s[a] in s;
    forall h: nat | h < |s| ensures Due(c, t, h) <==> Due(c, s, h) {
      forall k: nat ensures LastedFrom(c, t, h, k) <==> LastedFrom(c, s, h, k) {
        if k <= |s| { ArmedPrefix(c, s, o, k); }
      }
    }
    ArmedPrefix(c, s, o, |s|);
    if ArmedBefore(c, t, |s| + 1) && !Arms(c, o) {
      var a :| 0 <= a < |s| + 1 && Arms(c, t[a]);
      assert Arms(c, s[a]);
    }
  }

  lemma ArmedPrefix(c: Config, s: seq<Observation>, o: Observation, k: nat)
    requires k <= |s|
    ensures ArmedBefore(c, s + [o], k) <==> ArmedBefore(c, s, k)
  {
    var t := s + [o];
    assert forall a | 0 <= a < |s| :: t[a] == s[a];
    if ArmedBefore(c, t, k) {
      var a :| 0 <= a < k && Arms(c, t[a]);
      assert Arms(c, s[a]);
    }
    if ArmedBefore(c, s, k) {
      var a :| 0 <= a < k && Arms(c, s[a]);
      assert Arms(c, t[a]);
    }
  }

  /** A reading that is not quiet, or comes before any arming, is not due. */
  lemma NotDue(c: Config, s: seq<Observation>, o: Observation)
    requires !Quiet(c, o) || !ArmedBefore(c, s, |s|)
    ensures !Due(c, s + [o], |s|)
  {
    forall k: nat ensures !LastedFrom(c, s + [o], |s|, k) {
      if k <= |s| {
        ArmedPrefix(c, s, o, k);
        ArmedLater(c, s, k);
      }
    }
  }

  lemma ArmedLater(c: Config, s: seq<Observation>, k: nat)
    requires k <= |s|
    ensures ArmedBefore(c, s, k) ==> ArmedBefore(c, s, |s|)
  {}

  lemma StretchGrows(c: Config, s: seq<Observation>, o: Observation, since: Option<nat>) returns (k: nat)
    requires Quiet(c, o) && ArmedBefore(c, s, |s|)
    requires since.None? ==> s == [] || !Quiet(c, s[|s| - 1])
    requires since.Some? ==> exists k: nat :: Stretch(c, s, k) && s[k].time == since.value
    ensures Stretch(c, s + [o], k)
    ensures (s + [o])[k].time == if since.None? then o.time else since.value
  {
    if since.None? {
      k := |s|;
    } else {
      k :| Stretch(c, s, k) && s[k].time == since.value;
    }
    ArmedPrefix(c, s, o, k);
  }

  lemma NoEarlierStart(c: Config, s: seq<Observation>, j: nat, k: nat)
    requires QuietFrom(c, s, j, |s|) && 0 < k <= |s| && !Quiet(c, s[k - 1])
    ensures k <= j
  {}

  /** Only the start of the stretch matters: no earlier start is quiet, and a later one lasted less. */
  lemma StretchDecides(c: Config, s: seq<Observation>, k: nat)
    requires Monotone(s) && s != [] && Stretch(c, s, k)
    ensures s[k].time <= s[|s| - 1].time
    ensures Due(c, s, |s| - 1) <==> s[k].time + c.delay <= s[|s| - 1].time
  {
    var i := |s| - 1;
    assert s[k].time + c.delay <= s[i].time ==> LastedFrom(c, s, i, k);
    forall j: nat | LastedFrom(c, s, i, j) ensures s[k].time + c.delay <= s[i].time {
      NoEarlierStart(c, s, j, k);
    }
  }

  lemma Prefixes(s: seq<Observation>, n: nat)
    requires Monotone(s) && n < |s|
    ensures Monotone(s[..n]) && (forall o <- s[..n] :: o.time <= s[n].time) && s[..n] + [s[n]] == s[..n + 1]
  {}

  lemma FiresOnce(c: Config, s: seq<Observation>, i: nat, j: nat)
    requires i < |s| && j < |s| && Fires(c, s, i) && Fires(c, s, j)
    ensures i == j
  {}

  /** A whole run: the answers, of which at most one is yes. */
  method Watch(c: Config, s: seq<Observation>) returns (fired: seq<bool>)
    requires Monotone(s)
    ensures |fired| == |s|
    ensures forall i :: 0 <= i < |s| ==> (fired[i] <==> Fires(c, s, i))
    ensures forall i, j :: 0 <= i < |s| && 0 <= j < |s| && fired[i] && fired[j] ==> i == j
  {
    hide Monotone, Due, Fires, Monitor.Valid;
    var m := new Monitor(c);
    fired := [];
    for n := 0 to |s|
      invariant m.Valid() && m.config == c && m.seen == s[..n] && fresh(m)
      invariant |fired| == n
      invariant forall i :: 0 <= i < n ==> (fired[i] <==> Fires(c, s[..n], i))
    {
      Prefixes(s, n);
      var f := m.Observe(s[n].rpm, s[n].time);
      assert s[..n] + [s[n]] == s[..n + 1];
      Extends(c, s[..n], s[n]);
      fired := fired + [f];
    }
    assert s[..|s|] == s;
    forall i, j | 0 <= i < |s| && 0 <= j < |s| && fired[i] && fired[j] ensures i == j {
      FiresOnce(c, s, i, j);
    }
  }
}
