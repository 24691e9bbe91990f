/** The coalescing connectivity probe of the Supervisor object.

    Every stretch of code between two awaits is one atomic step.  `Next` describes
    what a step does to the fields of the Supervisor object and to the tasks of the
    event loop; the methods of class `Supervisor` are the code of those steps and
    are proved to do exactly that.  The theorems quantify over every run, that is,
    over every sequence of enabled steps of any number of callers. */
module ConnectivitySpec {
  import opened Wrappers

  type CallerId = nat
  type ProbeId = nat

  const MIN_INTERVAL_CONNECTED: real := 600.0
  const MIN_INTERVAL_DISCONNECTED: real := 5.0

  /** How a probe task ends: normally, having written the cached state; with an
      exception it does not handle; or cancelled. */
  datatype Outcome = Completed(online: bool) | Crashed | Cancelled

  /** A probe task, numbered by creation.  `startedAt` is the step that created it;
      `outcome` is `None` while the task is unfinished. */
  datatype Probe = Probe(startedAt: nat, outcome: Option<Outcome>)

  /** Where a suspended caller stands.  An owner created the probe it awaits; a
      cancelling owner has passed its own cancellation on to that probe and waits
      for it to end; a follower awaits a shielded probe of somebody else. */
  datatype Pc = Owner(probe: ProbeId) | Cancelling(probe: ProbeId) | Follower(probe: ProbeId)

  datatype State = State(
    connectivity: bool,
    check: Option<ProbeId>,
    rerunForced: bool,
    lastCheck: Option<real>,       // None: never probed
    fired: seq<bool>,              // connectivity-change events, oldest first
    callers: map<CallerId, Pc>,
    probes: seq<Probe>,
    step: nat)

  datatype Event =
    | Call(caller: CallerId, force: bool, now: real)
    | ProbeEnd(probe: ProbeId, outcome: Outcome)
    | Resume(caller: CallerId, raised: bool, now: real)
    | FollowerResume(caller: CallerId)
    | FollowerCancel(caller: CallerId)
    | OwnerCancel(caller: CallerId)

  const INIT := State(true, None, false, None, [], map[], [], 0)

  predicate Finished(s: State, p: ProbeId) {
    p < |s.probes| && s.probes[p].outcome.Some?
  }

  predicate Completes(s: State, p: ProbeId) {
    Finished(s, p) && s.probes[p].outcome.value.Completed?
  }

  /** Has the minimum interval since the last counted probe not passed yet? */
  predicate Throttled(s: State, now: real) {
    s.lastCheck.Some? &&
    now - s.lastCheck.value < if s.connectivity then MIN_INTERVAL_CONNECTED else MIN_INTERVAL_DISCONNECTED
  }

  predicate Enabled(s: State, e: Event) {
    match e
    case Call(c, _, _) => c !in s.callers
    case ProbeEnd(p, _) => p < |s.probes| && s.probes[p].outcome.None?
    case Resume(c, raised, _) =>
      && c in s.callers && !s.callers[c].Follower?
      && Finished(s, s.callers[c].probe)
         // A probe that did not complete always raises in its owner; a completed one
         // raises only if the owner itself was cancelled meanwhile.
      && (!Completes(s, s.callers[c].probe) ==> raised)
      && (s.callers[c].Owner? && Completes(s, s.callers[c].probe) ==> !raised)
    case FollowerResume(c) => c in s.callers && s.callers[c].Follower? && Finished(s, s.callers[c].probe)
    case FollowerCancel(c) => c in s.callers && s.callers[c].Follower?
    case OwnerCancel(c) => c in s.callers && s.callers[c].Owner?
  }

  /** The caller creates a probe, registers it and suspends on it. */
  function Own(s: State, c: CallerId): State {
    s.(check := Some(|s.probes|),
       probes := s.probes + [Probe(s.step, None)],
       callers := s.callers[c := Owner(|s.probes|)])
  }

  function Leave(s: State, c: CallerId): State {
    s.(callers := s.callers - {c})
  }

  function SetConnectivity(s: State, online: bool): State {
    if s.connectivity == online then s else s.(connectivity := online, fired := s.fired + [online])
  }

  /** A caller joins the registered probe, is answered from the cache, or starts a
      probe of its own.  Awaiting a finished probe does not suspend. */
  function Enter(s: State, c: CallerId, force: bool, now: real): State {
    if s.check.Some? then
      var queued := if force then s.(rerunForced := true) else s;
      if Finished(s, s.check.value) then queued else queued.(callers := s.callers[c := Follower(s.check.value)])
    else if !force && Throttled(s, now) then s
    else Own(s, c)
  }

  function Act(s: State, e: Event): State
    requires Enabled(s, e)
  {
    match e
    case Call(c, force, now) => Enter(s, c, force, now)
    case ProbeEnd(p, o) =>
      var ended := s.(probes := s.probes[p := s.probes[p].(outcome := Some(o))]);
      if o.Completed? then SetConnectivity(ended, o.online) else ended
    case Resume(c, raised, now) =>
      var released := if s.check == Some(s.callers[c].probe) then s.(check := None) else s;
      if raised then Leave(released, c)
      else
        var counted := Leave(released, c).(lastCheck := Some(now), rerunForced := false);
        if s.rerunForced then Enter(counted, c, true, now) else counted
    case FollowerResume(c) => Leave(s, c)
    case FollowerCancel(c) => Leave(s, c)
    case OwnerCancel(c) => s.(callers := s.callers[c := Cancelling(s.callers[c].probe)])
  }

  function Next(s: State, e: Event): State
    requires Enabled(s, e)
  {
    Act(s, e).(step := s.step + 1)
  }

  /** The state after a sequence of steps, or `None` if one of them was not enabled. */
  function Run(es: seq<Event>): Option<State> {
    if es == [] then Some(INIT)
    else
      var before := Run(es[..|es| - 1]);
      var last := es[|es| - 1];
      if before.Some? && Enabled(before.value, last) then Some(Next(before.value, last)) else None
  }

  // ---------------------------------------------------------------- safety

  ghost predicate Owns(s: State, c: CallerId) {
    c in s.callers && !s.callers[c].Follower?
  }

  /** Exactly one owner is suspended on the registered probe, and no owner is
      suspended otherwise. */
  ghost predicate OneOwner(s: State) {
    && (s.check.Some? <==> exists c :: Owns(s, c))
    && (forall c :: Owns(s, c) ==> s.check == Some(s.callers[c].probe))
    && (forall c, d :: Owns(s, c) && Owns(s, d) ==> c == d)
  }

  /** The registered probe is the newest one, and every other probe has finished. */
  ghost predicate OneProbe(s: State) {
    && (s.check.Some? ==> s.check.value == |s.probes| - 1)
    && (forall p :: 0 <= p < |s.probes| && Some(p) != s.check ==> Finished(s, p))
  }

  ghost predicate Inv(s: State) {
    && OneOwner(s)
    && OneProbe(s)
    && (forall p :: 0 <= p < |s.probes| ==> s.probes[p].startedAt < s.step)
    && (forall c :: c in s.callers ==> s.callers[c].probe < |s.probes|)
  }

  /** A step in which `c` becomes the owner of a new probe. */
  lemma OwnKeepsInv(s: State, t: State, c: CallerId)
    requires Inv(s) && s.check.None?
    requires t.probes == s.probes + [Probe(s.step, None)] && t.check == Some(|s.probes|)
    requires t.callers == s.callers[c := Owner(|s.probes|)] && t.step == s.step + 1
    ensures Inv(t)
  {
    assert Owns(t, c);
    assert forall x :: Owns(t, x) ==> x == c || Owns(s, x);
    assert forall p: nat :: Finished(s, p) ==> Finished(t, p);
  }

  /** A step that leaves the probes, the registration and the owners as they were. */
  lemma BystanderKeepsInv(s: State, t: State)
    requires Inv(s) && t.probes == s.probes && t.check == s.check && s.step <= t.step
    requires forall c :: Owns(t, c) <==> Owns(s, c)
    requires forall c :: Owns(t, c) && Owns(s, c) ==> t.callers[c].probe == s.callers[c].probe
    requires forall c :: c in t.callers ==> t.callers[c].probe < |s.probes|
    ensures Inv(t)
  {
    assert forall p: nat :: Finished(t, p) <==> Finished(s, p);
  }

  lemma ProbeEndKeepsInv(s: State, p: ProbeId, o: Outcome)
    requires Inv(s) && Enabled(s, ProbeEnd(p, o))
    ensures Inv(Next(s, ProbeEnd(p, o)))
  {
    var t := Next(s, ProbeEnd(p, o));
    assert forall q: nat :: Finished(s, q) ==> Finished(t, q);
    assert forall x :: Owns(t, x) <==> Owns(s, x);
  }

  lemma ReleaseKeepsInv(s: State, c: CallerId)
    requires Inv(s) && Owns(s, c) && Finished(s, s.callers[c].probe)
    ensures Inv(Leave(s.(check := None), c))
  {
    var t := Leave(s.(check := None), c);
    assert forall x :: Owns(t, x) ==> Owns(s, x) && x != c;
    assert forall p: nat :: Finished(t, p) <==> Finished(s, p);
  }

  lemma CallKeepsInv(s: State, c: CallerId, force: bool, now: real)
    requires Inv(s) && Enabled(s, Call(c, force, now))
    ensures Inv(Next(s, Call(c, force, now)))
  {
    var t := Next(s, Call(c, force, now));
    if s.check.None? && (force || !Throttled(s, now)) {
      OwnKeepsInv(s, t, c);
    } else {
      BystanderKeepsInv(s, t);
    }
  }

  lemma ResumeKeepsInv(s: State, c: CallerId, raised: bool, now: real)
    requires Inv(s) && Enabled(s, Resume(c, raised, now))
    ensures Inv(Next(s, Resume(c, raised, now)))
  {
    var t := Next(s, Resume(c, raised, now));
    assert Owns(s, c);
    ReleaseKeepsInv(s, c);
    var left := Leave(s.(check := None), c);
    if !raised && s.rerunForced {
      OwnKeepsInv(left, t, c);
    } else {
      BystanderKeepsInv(left, t);
    }
  }

  lemma NextKeepsInv(s: State, e: Event)
    requires Inv(s) && Enabled(s, e)
    ensures Inv(Next(s, e))
  {
    match e {
      case Call(c, force, now) => CallKeepsInv(s, c, force, now);
      case ProbeEnd(p, o) => ProbeEndKeepsInv(s, p, o);
      case Resume(c, raised, now) => ResumeKeepsInv(s, c, raised, now);
      case _ => BystanderKeepsInv(s, Next(s, e));
    }
  }

  ghost predicate AtMostOneUnfinished(s: State) {
    forall p: nat, q: nat | p < |s.probes| && q < |s.probes| :: !Finished(s, p) && !Finished(s, q) ==> p == q
  }

  /** Unfolds the last step of a run. */
  lemma LastStep(es: seq<Event>)
    requires Run(es).Some? && es != []
    ensures var s := Run(es[..|es| - 1]); var e := es[|es| - 1];
            s.Some? && Enabled(s.value, e) && Run(es).value == Next(s.value, e)
  {
  }

  /** In every run at most one probe is unfinished, and a probe is registered exactly
      while exactly one owner is suspended on it. */
  lemma {:induction false} RunsAreCoalesced(es: seq<Event>)
    requires Run(es).Some?
    ensures Run(es).value.step == |es|
    ensures AtMostOneUnfinished(Run(es).value)
    ensures Inv(Run(es).value)
  {
    if es != [] {
      LastStep(es);
      RunsAreCoalesced(es[..|es| - 1]);
      NextKeepsInv(Run(es[..|es| - 1]).value, es[|es| - 1]);
    }
  }

  // ---------------------------------------------------------------- forced requests

  ghost predicate Forced(es: seq<Event>, i: nat) {
    i < |es| && es[i].Call? && es[i].force
  }

  /** Some probe started in step `i` or later. */
  ghost predicate ProbedSince(s: State, i: nat) {
    exists p: nat :: p < |s.probes| && i <= s.probes[p].startedAt
  }

  ghost predicate StartsOrdered(s: State) {
    forall p, q :: 0 <= p <= q < |s.probes| ==> s.probes[p].startedAt <= s.probes[q].startedAt < s.step
  }

  /** The rerun flag is cleared only by a step that also starts a new probe. */
  lemma FlagClearedOnlyByAProbe(s: State, e: Event)
    requires Inv(s) && Enabled(s, e) && s.rerunForced && !Next(s, e).rerunForced
    ensures |Next(s, e).probes| == |s.probes| + 1
    ensures Next(s, e).probes[|s.probes|] == Probe(s.step, None)
    ensures Next(s, e).check == Some(|s.probes|)
    ensures e.Resume? && !e.raised
  {
    assert Owns(s, e.caller);
  }

  lemma NextKeepsProbedSince(s: State, e: Event, i: nat)
    requires Inv(s) && Enabled(s, e) && i <= s.step
    requires s.rerunForced || ProbedSince(s, i)
    ensures Next(s, e).rerunForced || ProbedSince(Next(s, e), i)
  {
    var t := Next(s, e);
    if ProbedSince(s, i) {
      var p: nat :| p < |s.probes| && i <= s.probes[p].startedAt;
      assert t.probes[p].startedAt == s.probes[p].startedAt;
    } else if !t.rerunForced {
      FlagClearedOnlyByAProbe(s, e);
      assert t.probes[|s.probes|].startedAt == s.step;
    }
  }

  /** In every run, whatever is cancelled or crashes, a forced request is either still
      queued in the flag or has a probe that started at or after it. */
  lemma {:induction false} ForcedIsQueuedOrProbed(es: seq<Event>, i: nat)
    requires Run(es).Some? && Forced(es, i)
    ensures Run(es).value.rerunForced || ProbedSince(Run(es).value, i)
  {
    var n := |es| - 1;
    var s := Run(es[..n]).value;
    RunsAreCoalesced(es[..n]);
    if i < n {
      ForcedIsQueuedOrProbed(es[..n], i);
      NextKeepsProbedSince(s, es[n], i);
    } else if s.check.None? {
      assert Run(es).value.probes[|s.probes|].startedAt == i;
    }
  }

  lemma {:induction false} RunsKeepStartsOrdered(es: seq<Event>)
    requires Run(es).Some?
    ensures StartsOrdered(Run(es).value)
  {
    if es != [] {
      LastStep(es);
      RunsKeepStartsOrdered(es[..|es| - 1]);
      StepKeepsStartsOrdered(Run(es[..|es| - 1]).value, es[|es| - 1]);
    }
  }

  /** A step starts at most one probe and never forgets when a probe started. */
  lemma StepKeepsStarts(s: State, e: Event)
    requires Enabled(s, e)
    ensures |s.probes| <= |Next(s, e).probes| <= |s.probes| + 1
    ensures forall p: nat :: p < |s.probes| ==> Next(s, e).probes[p].startedAt == s.probes[p].startedAt
    ensures |Next(s, e).probes| > |s.probes| ==> Next(s, e).probes[|s.probes|].startedAt == s.step
  {
  }

  lemma StepKeepsStartsOrdered(s: State, e: Event)
    requires StartsOrdered(s) && Enabled(s, e)
    ensures StartsOrdered(Next(s, e))
  {
    StepKeepsStarts(s, e);
    var t := Next(s, e);
    assert t.step == s.step + 1;
    forall p, q | 0 <= p <= q < |t.probes|
      ensures t.probes[p].startedAt <= t.probes[q].startedAt < t.step
    {
      if q < |s.probes| {
        assert s.probes[p].startedAt <= s.probes[q].startedAt < s.step;
      } else if p < |s.probes| {
        assert s.probes[p].startedAt <= s.probes[p].startedAt < s.step;
      }
    }
  }

  /** No owner was cancelled, and no probe was cancelled or crashed. */
  ghost predicate NoAborts(es: seq<Event>) {
    forall e :: e in es ==> !e.OwnerCancel? && (e.ProbeEnd? ==> e.outcome.Completed?)
  }

  ghost predicate Undisturbed(s: State) {
    && (forall c :: c in s.callers ==> !s.callers[c].Cancelling?)
    && (forall p: nat :: Finished(s, p) ==> Completes(s, p))
    && (s.rerunForced ==> s.check.Some?)
  }

  lemma {:induction false} NoAbortsKeepUndisturbed(es: seq<Event>)
    requires Run(es).Some? && NoAborts(es)
    ensures Undisturbed(Run(es).value)
  {
    if es != [] {
      var n := |es| - 1;
      LastStep(es);
      NoAbortsKeepUndisturbed(es[..n]);
      RunsAreCoalesced(es[..n]);
      assert es[n] in es;
      StepKeepsUndisturbed(Run(es[..n]).value, es[n]);
    }
  }

  lemma StepKeepsUndisturbed(s: State, e: Event)
    requires Inv(s) && Undisturbed(s) && Enabled(s, e)
    requires !e.OwnerCancel? && (e.ProbeEnd? ==> e.outcome.Completed?)
    ensures Undisturbed(Next(s, e))
  {
    var t := Next(s, e);
    forall p: nat | Finished(t, p)
      ensures Completes(t, p)
    {
      assert p < |s.probes| && (Finished(s, p) || (e.ProbeEnd? && e.probe == p));
    }
    if e.Resume? {
      assert Owns(s, e.caller);
    }
  }

  /** The newest completed probe decides the cached state; before any, it is online. */
  function CachedResult(probes: seq<Probe>): bool {
    if probes == [] then true
    else
      var last := probes[|probes| - 1].outcome;
      if last.Some? && last.value.Completed? then last.value.online else CachedResult(probes[..|probes| - 1])
  }

  lemma {:induction false} CachedStateIsNewestResult(es: seq<Event>)
    requires Run(es).Some?
    ensures Run(es).value.connectivity == CachedResult(Run(es).value.probes)
  {
    if es != [] {
      LastStep(es);
      CachedStateIsNewestResult(es[..|es| - 1]);
      RunsAreCoalesced(es[..|es| - 1]);
      StepKeepsCachedResult(Run(es[..|es| - 1]).value, es[|es| - 1]);
    }
  }

  lemma StepKeepsCachedResult(s: State, e: Event)
    requires Inv(s) && Enabled(s, e) && s.connectivity == CachedResult(s.probes)
    ensures Next(s, e).connectivity == CachedResult(Next(s, e).probes)
  {
    var t := Next(s, e);
    var n := |s.probes|;
    if e.ProbeEnd? {
      assert Some(e.probe) != s.check ==> Finished(s, e.probe);
      assert t.probes[..n - 1] == s.probes[..n - 1];
    } else if t.probes != s.probes {
      assert t.probes == s.probes + [Probe(s.step, None)];
      assert t.probes[..n] == s.probes;
    }
  }

  /** No probe is registered, and the newest one started in step `i` or later,
      completed, and produced the cached state. */
  ghost predicate FreshlyAnswered(s: State, i: nat) {
    var n := |s.probes|;
    n > 0 && i <= s.probes[n - 1].startedAt && s.probes[n - 1].outcome == Some(Completed(s.connectivity))
  }

  lemma FreshlyAnsweredExactly(s: State, i: nat)
    requires StartsOrdered(s) && s.connectivity == CachedResult(s.probes) && ProbedSince(s, i)
    ensures FreshlyAnswered(s, i) <==> Completes(s, |s.probes| - 1)
  {
    var p: nat :| p < |s.probes| && i <= s.probes[p].startedAt;
    assert s.probes[p].startedAt <= s.probes[|s.probes| - 1].startedAt;
  }

  /** In every run, once nothing is queued or running, a forced request has its fresh
      answer if and only if the newest probe completed. */
  lemma ForcedIsAnsweredExactly(es: seq<Event>, i: nat)
    requires Run(es).Some? && Run(es).value.check.None? && !Run(es).value.rerunForced && Forced(es, i)
    ensures var s := Run(es).value;
            s.probes != [] && (FreshlyAnswered(s, i) <==> Completes(s, |s.probes| - 1))
  {
    hide Run, CachedResult;
    RunsKeepStartsOrdered(es);
    CachedStateIsNewestResult(es);
    ForcedIsQueuedOrProbed(es, i);
    FreshlyAnsweredExactly(Run(es).value, i);
  }

  /** The documented guarantee.  In a run in which nothing is cancelled or crashes,
      whenever no probe is registered the flag is clear and the newest probe started
      at or after every forced request, completed, and produced the cached state. */
  lemma ForcedRequestsAreNeverLost(es: seq<Event>)
    requires Run(es).Some? && NoAborts(es) && Run(es).value.check.None?
    ensures !Run(es).value.rerunForced
    ensures forall i: nat :: Forced(es, i) ==> FreshlyAnswered(Run(es).value, i)
  {
    var s := Run(es).value;
    RunsAreCoalesced(es);
    NoAbortsKeepUndisturbed(es);
    forall i: nat | Forced(es, i)
      ensures FreshlyAnswered(s, i)
    {
      ForcedIsQueuedOrProbed(es, i);
      ForcedIsAnsweredExactly(es, i);
      assert Finished(s, |s.probes| - 1);
    }
  }

  /** A rerun is stranded when no probe is registered that would honour the flag. */
  ghost predicate Stranded(s: State) {
    s.check.None? && s.rerunForced
  }

  /** Exactly the steps that strand a queued rerun: the owner of the registered probe
      leaves with an exception while the flag is set. */
  lemma StrandedExactlyByARaisingOwner(s: State, e: Event)
    requires Inv(s) && Enabled(s, e) && !Stranded(s)
    ensures Stranded(Next(s, e)) <==> e.Resume? && e.raised && s.rerunForced
  {
    if e.Resume? {
      assert Owns(s, e.caller);
    }
  }

  /** One more step of a run. */
  lemma Extend(es: seq<Event>, e: Event)
    requires Run(es).Some? && Enabled(Run(es).value, e)
    ensures Run(es + [e]) == Some(Next(Run(es).value, e))
  {
    assert (es + [e])[..|es|] == es;
  }

  /** The documented guarantee fails for every run in which the owner of the registered
      probe is cancelled while a rerun is queued: the probe ends, the owner leaves, and
      the queued rerun stays behind with no new probe started. */
  lemma OwnerCancellationStrands(es: seq<Event>, c: CallerId, now: real) returns (fs: seq<Event>)
    requires Run(es).Some? && Run(es).value.rerunForced
    requires c in Run(es).value.callers && Run(es).value.callers[c].Owner?
    requires !Finished(Run(es).value, Run(es).value.callers[c].probe)
    ensures es <= fs && Run(fs).Some? && Stranded(Run(fs).value)
    ensures |Run(fs).value.probes| == |Run(es).value.probes|
    ensures forall q: nat :: q < |Run(es).value.probes| ==>
              Run(fs).value.probes[q].startedAt == Run(es).value.probes[q].startedAt
  {
    var s := Run(es).value;
    var p := s.callers[c].probe;
    RunsAreCoalesced(es);
    assert Owns(s, c);
    var es1 := es + [OwnerCancel(c)];
    Extend(es, OwnerCancel(c));
    var es2 := es1 + [ProbeEnd(p, Cancelled)];
    Extend(es1, ProbeEnd(p, Cancelled));
    fs := es2 + [Resume(c, true, now)];
    Extend(es2, Resume(c, true, now));
  }

  /** An event that the throttle of this state keeps from starting a probe. */
  ghost predicate KeptOff(s: State, e: Event) {
    e.Call? ==> !e.force && Throttled(s, e.now)
  }

  /** What a stranded rerun depends on is the same in both states. */
  ghost predicate SameWait(s: State, t: State) {
    && Stranded(s) && Stranded(t)
    && t.probes == s.probes && t.lastCheck == s.lastCheck && t.connectivity == s.connectivity
  }

  lemma StrandedStep(s: State, e: Event)
    requires Inv(s) && Stranded(s) && Enabled(s, e)
    ensures KeptOff(s, e) ==> SameWait(s, Next(s, e))
    ensures !KeptOff(s, e) ==> |Next(s, e).probes| == |s.probes| + 1
  {
    assert forall c :: !Owns(s, c);
    assert e.ProbeEnd? ==> Finished(s, e.probe);
    assert e.Resume? || e.OwnerCancel? ==> Owns(s, e.caller);
  }

  ghost predicate AllKeptOff(s: State, es: seq<Event>, i: nat) {
    forall j :: i <= j < |es| ==> KeptOff(s, es[j])
  }

  /** A stranded rerun waits for a caller that would have probed anyway: no probe starts,
      and the flag stays set, exactly as long as all calls are unforced and throttled. */
  lemma {:induction false} StrandedRerunWaits(es: seq<Event>, i: nat)
    requires i <= |es| && Run(es).Some? && Run(es[..i]).Some? && Stranded(Run(es[..i]).value)
    ensures |Run(es[..i]).value.probes| <= |Run(es).value.probes|
    ensures |Run(es).value.probes| == |Run(es[..i]).value.probes| <==> AllKeptOff(Run(es[..i]).value, es, i)
    ensures AllKeptOff(Run(es[..i]).value, es, i) ==> SameWait(Run(es[..i]).value, Run(es).value)
  {
    var n := |es| - 1;
    if i == |es| {
      assert es[..i] == es;
    } else {
      LastStep(es);
      assert es[..n][..i] == es[..i];
      StrandedRerunWaits(es[..n], i);
      RunsAreCoalesced(es[..n]);
      var s, t := Run(es[..i]).value, Run(es[..n]).value;
      StepKeepsStarts(t, es[n]);
      AllButTheLast(s, es, i);
      if AllKeptOff(s, es[..n], i) {
        StrandedStep(t, es[n]);
      }
      hide Run, Next, Inv, AllKeptOff;
    }
  }

  lemma AllButTheLast(s: State, es: seq<Event>, i: nat)
    requires i < |es|
    ensures AllKeptOff(s, es, i) <==> AllKeptOff(s, es[..|es| - 1], i) && KeptOff(s, es[|es| - 1])
  {
  }

  /** A run in which a forced request is left without any probe. */
  lemma ForcedRequestCanBeStranded()
    ensures exists es: seq<Event>, i: nat ::
              Run(es).Some? && Forced(es, i) && Stranded(Run(es).value) && !ProbedSince(Run(es).value, i)
  {
    assert Run([]) == Some(INIT);
    Extend([], Call(0, true, 0.0));
    var es1 := [Call(0, true, 0.0)];
    assert [] + es1 == es1;
    Extend(es1, Call(1, true, 0.0));
    var es2 := es1 + [Call(1, true, 0.0)];
    var s := Run(es2).value;
    assert s.callers[0] == Owner(0) && |s.probes| == 1;
    var fs := OwnerCancellationStrands(es2, 0, 0.0);
    assert Forced(es2, 1) && Forced(fs, 1);
    assert !ProbedSince(Run(fs).value, 1);
  }

  // ---------------------------------------------------------------- accounting

  /** How many calls became owners of a new probe. */
  ghost function OwnerCalls(es: seq<Event>): nat
    requires Run(es).Some?
  {
    if es == [] then 0
    else
      var s := Run(es[..|es| - 1]).value;
      var e := es[|es| - 1];
      OwnerCalls(es[..|es| - 1])
      + if e.Call? && s.check.None? && (e.force || !Throttled(s, e.now)) then 1 else 0
  }

  /** How many owners woke normally and found the flag set. */
  ghost function Reruns(es: seq<Event>): nat
    requires Run(es).Some?
  {
    if es == [] then 0
    else
      var e := es[|es| - 1];
      Reruns(es[..|es| - 1])
      + if e.Resume? && !e.raised && Run(es[..|es| - 1]).value.rerunForced then 1 else 0
  }

  /** How many maximal groups of forced calls have been queued: a group is the forced
      calls that arrive between two moments at which the flag is clear. */
  ghost function ForcedGroups(es: seq<Event>): nat
    requires Run(es).Some?
  {
    if es == [] then 0
    else
      var s := Run(es[..|es| - 1]).value;
      var e := es[|es| - 1];
      ForcedGroups(es[..|es| - 1])
      + if e.Call? && e.force && s.check.Some? && !s.rerunForced then 1 else 0
  }

  /** Probes are started only by calls that became owners and by reruns, and any number
      of forced calls queued together cost one rerun: every group but one that is still
      queued has had exactly one. */
  lemma {:induction false} ProbeAccounting(es: seq<Event>)
    requires Run(es).Some?
    ensures |Run(es).value.probes| == OwnerCalls(es) + Reruns(es)
    ensures ForcedGroups(es) == Reruns(es) + if Run(es).value.rerunForced then 1 else 0
  {
    if es != [] {
      LastStep(es);
      ProbeAccounting(es[..|es| - 1]);
      RunsAreCoalesced(es[..|es| - 1]);
      var s, e := Run(es[..|es| - 1]).value, es[|es| - 1];
      if e.Resume? {
        assert Owns(s, e.caller);
      }
    }
  }

  // ---------------------------------------------------------------- throttling

  /** Times at which an owner woke normally and counted its probe, oldest first. */
  ghost function Completions(es: seq<Event>): seq<real> {
    if es == [] then []
    else
      var e := es[|es| - 1];
      Completions(es[..|es| - 1]) + if e.Resume? && !e.raised then [e.now] else []
  }

  ghost predicate ReadsClock(e: Event) {
    e.Call? || e.Resume?
  }

  /** How many probes completed. */
  function CompletedProbes(probes: seq<Probe>): nat {
    if probes == [] then 0
    else
      var last := probes[|probes| - 1].outcome;
      CompletedProbes(probes[..|probes| - 1]) + if last.Some? && last.value.Completed? then 1 else 0
  }

  /** How many owners left with an exception although their probe had completed. */
  ghost function Uncounted(es: seq<Event>): nat
    requires Run(es).Some?
  {
    if es == [] then 0
    else
      var s, e := Run(es[..|es| - 1]).value, es[|es| - 1];
      Uncounted(es[..|es| - 1]) + if e.Resume? && e.raised && Completes(s, s.callers[e.caller].probe) then 1 else 0
  }

  lemma StepCountsCompleted(s: State, e: Event)
    requires Inv(s) && Enabled(s, e)
    ensures CompletedProbes(Next(s, e).probes)
            == CompletedProbes(s.probes) + if e.ProbeEnd? && e.outcome.Completed? then 1 else 0
  {
    var ps, n := Next(s, e).probes, |s.probes|;
    if e.ProbeEnd? {
      assert Some(e.probe) != s.check ==> Finished(s, e.probe);
      var last := s.probes[n - 1].(outcome := Some(e.outcome));
      assert ps == s.probes[..n - 1] + [last];
      OneMoreProbe(s.probes[..n - 1], last);
    } else if ps != s.probes {
      OneMoreProbe(s.probes, Probe(s.step, None));
    }
  }

  lemma OneMoreProbe(probes: seq<Probe>, last: Probe)
    ensures CompletedProbes(probes + [last])
            == CompletedProbes(probes) + if last.outcome.Some? && last.outcome.value.Completed? then 1 else 0
  {
    assert (probes + [last])[..|probes|] == probes;
  }

  lemma StepKeepsPendingResult(s: State, e: Event)
    requires Inv(s) && Enabled(s, e)
    ensures var t := Next(s, e);
            (t.check.Some? && Completes(t, t.check.value))
            <==> (e.ProbeEnd? && e.outcome.Completed?) || (!e.Resume? && s.check.Some? && Completes(s, s.check.value))
    ensures e.Resume? ==> s.check == Some(s.callers[e.caller].probe)
    ensures e.Resume? && !e.raised ==> Completes(s, s.check.value)
    ensures e.ProbeEnd? ==> s.check == Some(e.probe) && !Completes(s, e.probe)
  {
    if e.Resume? {
      assert Owns(s, e.caller);
    }
    if e.ProbeEnd? {
      assert Some(e.probe) != s.check ==> Finished(s, e.probe);
    }
  }

  /** Every completed probe has been counted by its owner, or its owner left with an
      exception, or it still waits for its owner. */
  lemma {:induction false} CompletionAccounting(es: seq<Event>)
    requires Run(es).Some?
    ensures var s := Run(es).value;
            CompletedProbes(s.probes)
            == |Completions(es)| + Uncounted(es) + if s.check.Some? && Completes(s, s.check.value) then 1 else 0
  {
    if es != [] {
      var n := |es| - 1;
      LastStep(es);
      CompletionAccounting(es[..n]);
      RunsAreCoalesced(es[..n]);
      StepCountsCompleted(Run(es[..n]).value, es[n]);
      StepKeepsPendingResult(Run(es[..n]).value, es[n]);
    }
  }

  /** The last time read so far. */
  ghost function Clock(es: seq<Event>): Option<real> {
    if es == [] then None
    else if ReadsClock(es[|es| - 1]) then Some(es[|es| - 1].now)
    else Clock(es[..|es| - 1])
  }

  ghost predicate NotBefore(earlier: Option<real>, now: real) {
    earlier.Some? ==> earlier.value <= now
  }

  ghost predicate MonotoneClock(es: seq<Event>) {
    es != [] ==>
      && MonotoneClock(es[..|es| - 1])
      && (ReadsClock(es[|es| - 1]) ==> NotBefore(Clock(es[..|es| - 1]), es[|es| - 1].now))
  }

  ghost predicate Unforced(es: seq<Event>) {
    forall i :: 0 <= i < |es| ==> !(es[i].Call? && es[i].force)
  }

  ghost predicate Spaced(times: seq<real>, interval: real) {
    forall i :: 0 < i < |times| ==> times[i] - times[i - 1] >= interval
  }

  /** No probe of the run ever found the Supervisor offline. */
  ghost predicate AlwaysOnline(es: seq<Event>) {
    forall i :: 0 <= i < |es| && es[i].ProbeEnd? && es[i].outcome.Completed? ==> es[i].outcome.online
  }

  /** An interval that the throttle enforces in the whole run. */
  ghost predicate Enforced(es: seq<Event>, interval: real) {
    interval == MIN_INTERVAL_DISCONNECTED || (interval == MIN_INTERVAL_CONNECTED && AlwaysOnline(es))
  }

  lemma {:induction false} StaysOnline(es: seq<Event>)
    requires Run(es).Some? && AlwaysOnline(es)
    ensures Run(es).value.connectivity
  {
    if es != [] {
      LastStep(es);
      StaysOnline(es[..|es| - 1]);
    }
  }

  /** The owner of a registered probe can only complete later than the interval after the
      previous completion. */
  ghost predicate Pacing(s: State, times: seq<real>, clock: Option<real>, interval: real) {
    && Spaced(times, interval)
    && !s.rerunForced
    && s.lastCheck == (if times == [] then None else Some(times[|times| - 1]))
    && (s.check.Some? && s.lastCheck.Some? ==>
          clock.Some? && clock.value - s.lastCheck.value >= interval)
  }

  lemma StepKeepsPacing(s: State, e: Event, times: seq<real>, clock: Option<real>, interval: real)
    requires Inv(s) && Enabled(s, e) && Pacing(s, times, clock, interval)
    requires interval <= if s.connectivity then MIN_INTERVAL_CONNECTED else MIN_INTERVAL_DISCONNECTED
    requires !(e.Call? && e.force)
    requires ReadsClock(e) ==> NotBefore(clock, e.now)
    ensures Pacing(Next(s, e), if e.Resume? && !e.raised then times + [e.now] else times,
                   if ReadsClock(e) then Some(e.now) else clock, interval)
  {
    if e.Resume? {
      assert Owns(s, e.caller);
    }
  }

  /** In a run of unforced calls, the next completion cannot come before the interval after
      the previous one: the short interval always, the long one if the Supervisor is never
      found offline. */
  lemma {:induction false} UnforcedCompletionsAreSpaced(es: seq<Event>, interval: real)
    requires Run(es).Some? && Unforced(es) && MonotoneClock(es) && Enforced(es, interval)
    ensures Pacing(Run(es).value, Completions(es), Clock(es), interval)
  {
    if es != [] {
      var n := |es| - 1;
      LastStep(es);
      UnforcedCompletionsAreSpaced(es[..n], interval);
      RunsAreCoalesced(es[..n]);
      if AlwaysOnline(es[..n]) {
        StaysOnline(es[..n]);
      }
      StepKeepsPacing(Run(es[..n]).value, es[n], Completions(es[..n]), Clock(es[..n]), interval);
    }
  }

  /** So many intervals, one after the other. */
  ghost function Intervals(interval: real, n: nat): real {
    if n == 0 then 0.0 else Intervals(interval, n - 1) + interval
  }

  lemma {:induction false} SpacedApart(times: seq<real>, interval: real, i: nat, j: nat)
    requires Spaced(times, interval) && i <= j < |times|
    ensures times[j] - times[i] >= Intervals(interval, j - i)
    decreases j
  {
    if i < j {
      SpacedApart(times, interval, i, j - 1);
    }
  }

  lemma {:induction false} IntervalsAre(n: nat)
    ensures Intervals(MIN_INTERVAL_DISCONNECTED, n) == n as real * 5.0
    ensures Intervals(MIN_INTERVAL_CONNECTED, n) == n as real * 600.0
  {
    if n > 0 {
      IntervalsAre(n - 1);
    }
  }

  /** How many probes the throttle lets through in a window of `width` seconds: one every 5
      seconds, or every 600 with the longer interval, and one more. */
  function Limit(interval: real, width: real): real {
    if interval == MIN_INTERVAL_DISCONNECTED then width / 5.0 + 1.0 else width / 600.0 + 1.0
  }

  /** In any window of `width` seconds no more probes complete than the limit: if the completions
      from the i-th to the j-th all fall in the window, they are so few. */
  lemma ThrottleBound(es: seq<Event>, interval: real, i: nat, j: nat, from: real, width: real)
    requires Run(es).Some? && Unforced(es) && MonotoneClock(es) && Enforced(es, interval)
    requires i <= j < |Completions(es)|
    requires from <= Completions(es)[i] && Completions(es)[j] <= from + width
    ensures (j - i + 1) as real <= Limit(interval, width)
  {
    UnforcedCompletionsAreSpaced(es, interval);
    SpacedApart(Completions(es), interval, i, j);
    IntervalsAre(j - i);
  }

  lemma {:induction false} CompletionsGrow(es: seq<Event>, a: nat)
    requires a <= |es|
    ensures Completions(es[..a]) <= Completions(es)
    ensures forall k :: |Completions(es[..a])| <= k < |Completions(es)| ==>
              exists i :: a <= i < |es| && es[i].Resume? && !es[i].raised && es[i].now == Completions(es)[k]
  {
    if a == |es| {
      assert es[..a] == es;
    } else {
      var n := |es| - 1;
      assert es[..n][..a] == es[..a];
      CompletionsGrow(es[..n], a);
      assert forall i :: a <= i < n ==> es[..n][i] == es[i];
    }
  }

  /** From step `a` on, every owner that counts its probe does so in the given time. */
  ghost predicate CountsWithin(es: seq<Event>, a: nat, from: real, width: real) {
    forall i :: a <= i < |es| && es[i].Resume? && !es[i].raised ==> from <= es[i].now <= from + width
  }

  /** Of the steps from `a` on, how many completed a probe. */
  ghost function CompletedSince(es: seq<Event>, a: nat): int
    requires Run(es).Some? && a <= |es| && Run(es[..a]).Some?
  {
    CompletedProbes(Run(es).value.probes) - CompletedProbes(Run(es[..a]).value.probes)
  }

  /** Of those steps, in how many an owner left its completed probe with an exception. */
  ghost function UncountedSince(es: seq<Event>, a: nat): int
    requires Run(es).Some? && a <= |es| && Run(es[..a]).Some?
  {
    Uncounted(es) - Uncounted(es[..a])
  }

  /** All completed probes in a window of `width` seconds: at most the limit, and besides those
      whose owners left with an exception, and one that still waits. */
  lemma CompletedProbesInAWindow(es: seq<Event>, interval: real, a: nat, from: real, width: real)
    requires Run(es).Some? && Unforced(es) && MonotoneClock(es) && Enforced(es, interval)
    requires a <= |es| && Run(es[..a]).Some? && 0.0 <= width && CountsWithin(es, a, from, width)
    ensures CompletedSince(es, a) as real <= Limit(interval, width) + UncountedSince(es, a) as real + 1.0
  {
    CompletionAccounting(es);
    CompletionAccounting(es[..a]);
    CompletionsGrow(es, a);
    var i, j := |Completions(es[..a])|, |Completions(es)| - 1;
    if i <= j {
      ThrottleBound(es, interval, i, j, from, width);
    }
  }

  // ---------------------------------------------------------------- events

  ghost predicate Alternating(s: State) {
    && (forall k :: 0 <= k < |s.fired| ==> s.fired[k] == (k % 2 == 1))
    && s.connectivity == (|s.fired| % 2 == 0)
  }

  lemma StepKeepsAlternating(s: State, e: Event)
    requires Alternating(s) && Enabled(s, e)
    ensures Alternating(Next(s, e))
  {
    var t := Next(s, e);
    if t.connectivity == s.connectivity {
      assert t.fired == s.fired;
    } else {
      assert t.fired == s.fired + [t.connectivity];
    }
  }

  /** Change events fire only on a change: in every run they alternate, beginning with
      offline, and the newest is the cached state. */
  lemma {:induction false} ChangeEventsAlternate(es: seq<Event>)
    requires Run(es).Some?
    ensures Alternating(Run(es).value)
  {
    if es != [] {
      LastStep(es);
      ChangeEventsAlternate(es[..|es| - 1]);
      StepKeepsAlternating(Run(es[..|es| - 1]).value, es[|es| - 1]);
    }
  }

  // ---------------------------------------------------------------- who waits, and for how long

  /** The caller is suspended on the probe, in whatever role. */
  ghost predicate WaitsFor(s: State, c: CallerId, p: ProbeId) {
    c in s.callers && s.callers[c].probe == p
  }

  /** The probe has ended, or the caller waits for it, as its owner if `owning`. */
  ghost predicate Awaits(s: State, c: CallerId, p: ProbeId, owning: bool) {
    Finished(s, p) || (WaitsFor(s, c, p) && (owning ==> Owns(s, c)))
  }

  lemma StepKeepsWaiting(s: State, e: Event, c: CallerId, p: ProbeId, owning: bool)
    requires Inv(s) && Enabled(s, e) && Awaits(s, c, p, owning)
    requires owning || e != FollowerCancel(c)
    ensures Awaits(Next(s, e), c, p, owning)
  {
  }

  lemma {:induction false} WaitingGoesOn(es: seq<Event>, i: nat, c: CallerId, p: ProbeId, owning: bool)
    requires i <= |es| && Run(es).Some? && Run(es[..i]).Some? && Awaits(Run(es[..i]).value, c, p, owning)
    requires owning || forall j :: i <= j < |es| ==> es[j] != FollowerCancel(c)
    ensures Awaits(Run(es).value, c, p, owning)
  {
    if i == |es| {
      assert es[..i] == es;
    } else {
      var n := |es| - 1;
      LastStep(es);
      assert es[..n][..i] == es[..i];
      assert forall j :: i <= j < n ==> es[..n][j] == es[j];
      WaitingGoesOn(es[..n], i, c, p, owning);
      RunsAreCoalesced(es[..n]);
      StepKeepsWaiting(Run(es[..n]).value, es[n], c, p, owning);
    }
  }

  lemma RunOfPrefix(es: seq<Event>, i: nat)
    requires Run(es).Some? && i <= |es|
    ensures Run(es[..i]).Some?
    ensures i < |es| ==> Enabled(Run(es[..i]).value, es[i]) && Run(es[..i + 1]).Some?
                         && Run(es[..i + 1]).value == Next(Run(es[..i]).value, es[i])
    decreases |es| - i
  {
    if i < |es| {
      RunOfPrefix(es, i + 1);
      assert es[..i + 1][..i] == es[..i];
      LastStep(es[..i + 1]);
      hide Run, Next, Enabled;
    } else {
      assert es[..i] == es;
    }
  }

  /** A caller that arrives while a probe is registered does not return before that probe has
      ended, unless it is cancelled itself. */
  lemma JoinersAwaitTheProbe(es: seq<Event>, i: nat, p: ProbeId)
    requires Run(es).Some? && i < |es| && es[i].Call? && Run(es[..i]).Some?
    requires Run(es[..i]).value.check == Some(p)
    requires forall j :: i < j < |es| ==> es[j] != FollowerCancel(es[i].caller)
    ensures es[i].caller !in Run(es).value.callers ==> Finished(Run(es).value, p)
    ensures Finished(Run(es).value, p) || WaitsFor(Run(es).value, es[i].caller, p)
  {
    RunOfPrefix(es, i);
    WaitingGoesOn(es, i + 1, es[i].caller, p, false);
  }

  /** A caller whose call starts a probe does not return before that probe has ended, even if it
      is cancelled. */
  lemma OwnersAwaitTheirProbe(es: seq<Event>, i: nat)
    requires Run(es).Some? && i < |es| && es[i].Call? && Run(es[..i]).Some? && Run(es[..i + 1]).Some?
    requires |Run(es[..i]).value.probes| < |Run(es[..i + 1]).value.probes|
    ensures var p := |Run(es[..i]).value.probes|;
            Finished(Run(es).value, p) || (Owns(Run(es).value, es[i].caller) && WaitsFor(Run(es).value, es[i].caller, p))
  {
    var c, p := es[i].caller, |Run(es[..i]).value.probes|;
    RunOfPrefix(es, i);
    WaitingGoesOn(es, i + 1, c, p, true);
  }

  /** Once its probe has ended, a follower can go on, and returns without doing anything else. */
  lemma FollowersReturn(s: State, c: CallerId)
    requires c in s.callers && s.callers[c].Follower? && Finished(s, s.callers[c].probe)
    ensures Enabled(s, FollowerResume(c)) && c !in Next(s, FollowerResume(c)).callers
    ensures Next(s, FollowerResume(c)).(callers := s.callers, step := s.step) == s
    ensures forall d :: d in s.callers && d != c ==>
              d in Next(s, FollowerResume(c)).callers && Next(s, FollowerResume(c)).callers[d] == s.callers[d]
  {
  }

  lemma StepSetsLastCheck(s: State, e: Event)
    requires Enabled(s, e)
    ensures Next(s, e).lastCheck == if e.Resume? && !e.raised then Some(e.now) else s.lastCheck
  {
  }

  lemma {:induction false} LastCheckIsTheLastCompletion(es: seq<Event>)
    requires Run(es).Some?
    ensures var times := Completions(es);
            Run(es).value.lastCheck == if times == [] then None else Some(times[|times| - 1])
  {
    if es != [] {
      LastStep(es);
      LastCheckIsTheLastCompletion(es[..|es| - 1]);
      StepSetsLastCheck(Run(es[..|es| - 1]).value, es[|es| - 1]);
      hide Next, Enabled, Run;
    }
  }

  /** With no probe registered, a call starts one exactly if it is forced, or no probe has been
      counted yet, or the last one was counted 600 seconds ago or longer, 5 seconds if the newest
      completed probe found the Supervisor offline. */
  lemma CallStartsAProbeExactly(es: seq<Event>, c: CallerId, force: bool, now: real)
    requires Run(es).Some? && Run(es).value.check.None? && c !in Run(es).value.callers
    ensures Run(es + [Call(c, force, now)]).Some?
    ensures var before, after := |Run(es).value.probes|, |Run(es + [Call(c, force, now)]).value.probes|;
            var times := Completions(es);
            && before <= after <= before + 1
            && (before < after <==>
                  force || times == []
                  || now - times[|times| - 1] >= if CachedResult(Run(es).value.probes) then 600.0 else 5.0)
  {
    Extend(es, Call(c, force, now));
    LastCheckIsTheLastCompletion(es);
    CachedStateIsNewestResult(es);
    hide Completions, CachedResult;
  }

  // ---------------------------------------------------------------- cancelled followers

  function WithoutFollowerCancels(es: seq<Event>): seq<Event> {
    if es == [] then []
    else
      var n := |es| - 1;
      WithoutFollowerCancels(es[..n]) + if es[n].FollowerCancel? then [] else [es[n]]
  }

  ghost predicate HasCalled(es: seq<Event>, c: CallerId) {
    exists i :: 0 <= i < |es| && es[i].Call? && es[i].caller == c
  }

  /** Every call is made by a caller of its own. */
  ghost predicate FreshCallers(es: seq<Event>) {
    es != [] ==>
      var n := |es| - 1;
      FreshCallers(es[..n]) && (es[n].Call? ==> !HasCalled(es[..n], es[n].caller))
  }

  /** The same but for some followers that still wait in the second state, and for the
      numbering of the steps. */
  ghost predicate Alike(s: State, t: State) {
    && s.connectivity == t.connectivity && s.check == t.check && s.rerunForced == t.rerunForced
    && s.lastCheck == t.lastCheck && s.fired == t.fired
    && |s.probes| == |t.probes|
    && (forall p: nat :: p < |s.probes| ==> s.probes[p].outcome == t.probes[p].outcome)
    && (forall c :: c in s.callers ==> c in t.callers && s.callers[c] == t.callers[c])
    && (forall c :: c in t.callers && c !in s.callers ==> t.callers[c].Follower?)
  }

  lemma EnterKeepsAlike(s: State, t: State, c: CallerId, force: bool, now: real)
    requires Alike(s, t) && (c in t.callers ==> c in s.callers)
    ensures Alike(Enter(s, c, force, now), Enter(t, c, force, now))
  {
    assert forall p: nat :: Finished(s, p) <==> Finished(t, p);
  }

  lemma ResumeKeepsAlike(s: State, t: State, e: Event)
    requires Alike(s, t) && Enabled(s, e) && e.Resume?
    ensures Enabled(t, e) && Alike(Next(s, e), Next(t, e))
  {
    var c, p := e.caller, s.callers[e.caller].probe;
    assert (Finished(s, p) <==> Finished(t, p)) && (Completes(s, p) <==> Completes(t, p));
    var released := if s.check == Some(p) then s.(check := None) else s;
    var released' := if t.check == Some(p) then t.(check := None) else t;
    var left, left' := Leave(released, c), Leave(released', c);
    assert Alike(left, left');
    if !e.raised {
      var counted, counted' := left.(lastCheck := Some(e.now), rerunForced := false),
                               left'.(lastCheck := Some(e.now), rerunForced := false);
      EnterKeepsAlike(counted, counted', c, true, e.now);
    }
    hide Enter, Finished, Completes;
  }

  lemma StepKeepsAlike(s: State, t: State, e: Event)
    requires Alike(s, t) && Enabled(s, e) && !e.FollowerCancel?
    requires e.Call? ==> e.caller !in t.callers
    ensures Enabled(t, e) && Alike(Next(s, e), Next(t, e))
  {
    match e {
      case Call(c, force, now) => EnterKeepsAlike(s, t, c, force, now);
      case Resume(c, raised, now) => ResumeKeepsAlike(s, t, e);
      case ProbeEnd(p, o) => ProbeEndKeepsAlike(s, t, e);
      case FollowerResume(c) => assert Finished(s, s.callers[c].probe) <==> Finished(t, s.callers[c].probe);
      case OwnerCancel(_) =>
      case FollowerCancel(_) =>
    }
    hide Enter;
  }

  lemma ProbeEndKeepsAlike(s: State, t: State, e: Event)
    requires Alike(s, t) && Enabled(s, e) && e.ProbeEnd?
    ensures Enabled(t, e) && Alike(Next(s, e), Next(t, e))
  {
    hide Finished, Completes, Enter;
    var ended := s.(probes := s.probes[e.probe := s.probes[e.probe].(outcome := Some(e.outcome))]);
    var ended' := t.(probes := t.probes[e.probe := t.probes[e.probe].(outcome := Some(e.outcome))]);
    assert Alike(ended, ended');
    if e.outcome.Completed? {
      SetConnectivityKeepsAlike(ended, ended', e.outcome.online);
    }
    SetConnectivityKeepsAlike(Act(s, e), Act(t, e), false);
    hide Alike;
  }

  lemma SetConnectivityKeepsAlike(s: State, t: State, online: bool)
    ensures Alike(s, t) ==> Alike(SetConnectivity(s, online), SetConnectivity(t, online))
    ensures Alike(s, t) <==> Alike(s.(step := s.step + 1), t.(step := t.step + 1))
  {
  }

  /** Cancelled followers leave no trace: a run without its follower cancellations is a run
      too, and ends with the same cached state, registration, flag, time stamp, events, probe
      results and owners. */
  lemma {:induction false} CancelledFollowersLeaveNoTrace(es: seq<Event>)
    requires Run(es).Some? && FreshCallers(es)
    ensures Run(WithoutFollowerCancels(es)).Some?
    ensures Alike(Run(es).value, Run(WithoutFollowerCancels(es)).value)
    ensures forall c :: c in Run(WithoutFollowerCancels(es)).value.callers ==> HasCalled(es, c)
  {
    if es != [] {
      var n := |es| - 1;
      LastStep(es);
      CancelledFollowersLeaveNoTrace(es[..n]);
      var kept, e := WithoutFollowerCancels(es[..n]), es[n];
      if e.FollowerCancel? {
        assert WithoutFollowerCancels(es) == kept;
      } else {
        StepKeepsAlike(Run(es[..n]).value, Run(kept).value, e);
        Extend(kept, e);
      }
      OnlyCallersAppear(es, kept);
    }
  }

  lemma OnlyCallersAppear(es: seq<Event>, kept: seq<Event>)
    requires es != [] && Run(kept).Some?
    requires forall c :: c in Run(kept).value.callers ==> HasCalled(es[..|es| - 1], c)
    ensures forall c :: c in Run(kept).value.callers ==> HasCalled(es, c)
    ensures var e := es[|es| - 1];
            Enabled(Run(kept).value, e) ==> forall c :: c in Next(Run(kept).value, e).callers ==> HasCalled(es, c)
  {
    var n, e := |es| - 1, es[|es| - 1];
    forall c | HasCalled(es[..n], c)
      ensures HasCalled(es, c)
    {
      var i :| 0 <= i < n && es[..n][i].Call? && es[..n][i].caller == c;
      assert es[i].Call? && es[i].caller == c;
    }
    assert Enabled(Run(kept).value, e) ==>
      forall c :: c in Next(Run(kept).value, e).callers ==> c in Run(kept).value.callers || (e.Call? && e.caller == c);
  }
}

module Connectivity {
  import opened Wrappers
  import opened ConnectivitySpec

  /** The connectivity part of the Supervisor object, with the tasks that run its
      coroutines.  Each method is one stretch of code between two awaits. */
  class Supervisor {
    var connectivity: bool
    var connectivityCheck: Option<ProbeId>
    var rerunForced: bool
    var lastCheck: Option<real>
    var fired: seq<bool>
    var callers: map<CallerId, Pc>
    var probes: seq<Probe>
    var step: nat

    ghost function View(): State
      reads this
    {
      State(connectivity, connectivityCheck, rerunForced, lastCheck, fired, callers, probes, step)
    }

    constructor ()
      ensures View() == INIT
    {
      connectivity, connectivityCheck, rerunForced, lastCheck := true, None, false, None;
      fired, callers, probes, step := [], map[], [], 0;
    }

    /** A fresh task enters `check_and_update_connectivity`. */
    method Call(c: CallerId, force: bool, now: real)
      requires Enabled(View(), ConnectivitySpec.Call(c, force, now))
      modifies this
      ensures View() == Next(old(View()), ConnectivitySpec.Call(c, force, now))
    {
      CheckAndUpdateConnectivity(c, force, now);
      step := step + 1;
    }

    /** `check_and_update_connectivity` up to its first await. */
    method CheckAndUpdateConnectivity(c: CallerId, force: bool, now: real)
      modifies this
      ensures View() == Enter(old(View()), c, force, now)
    {
      if connectivityCheck.Some? {
        if force {
          rerunForced := true;
        }
        AwaitShielded(c, connectivityCheck.value);
      } else {
        var run := true;
        if !force && lastCheck.Some? {
          var minInterval := if connectivity then MIN_INTERVAL_CONNECTED else MIN_INTERVAL_DISCONNECTED;
          var elapsed := now - lastCheck.value;
          run := elapsed >= minInterval;
        }
        if run {
          StartProbe(c);
        }
      }
    }

    /** Awaiting a finished task does not suspend. */
    method AwaitShielded(c: CallerId, p: ProbeId)
      modifies this`callers
      ensures callers == if Finished(View(), p) then old(callers) else old(callers)[c := Follower(p)]
    {
      if !(p < |probes| && probes[p].outcome.Some?) {
        callers := callers[c := Follower(p)];
      }
    }

    method StartProbe(c: CallerId)
      modifies this
      ensures View() == Own(old(View()), c)
    {
      var probe := |probes|;
      probes := probes + [Probe(step, None)];
      connectivityCheck := Some(probe);
      callers := callers[c := Owner(probe)];
    }

    /** The last stretch of `_do_connectivity_check`, or its abnormal end. */
    method EndProbe(p: ProbeId, outcome: Outcome)
      requires Enabled(View(), ProbeEnd(p, outcome))
      modifies this
      ensures View() == Next(old(View()), ProbeEnd(p, outcome))
    {
      probes := probes[p := probes[p].(outcome := Some(outcome))];
      match outcome {
        case Completed(online) => UpdateConnectivity(online);
        case Crashed =>
        case Cancelled =>
      }
      step := step + 1;
    }

    method UpdateConnectivity(state: bool)
      modifies this`connectivity, this`fired
      ensures View() == SetConnectivity(old(View()), state)
    {
      if connectivity == state {
        return;
      }
      connectivity := state;
      fired := fired + [state];
    }

    /** What the owner does once its probe has ended: the finally block, then, unless
        an exception is on its way, the time stamp and the queued rerun, which runs up
        to its own await without giving way to any other task. */
    method ResumeOwner(c: CallerId, raised: bool, now: real)
      requires Enabled(View(), Resume(c, raised, now))
      modifies this
      ensures View() == Next(old(View()), Resume(c, raised, now))
    {
      var probe := callers[c].probe;
      if connectivityCheck == Some(probe) {
        connectivityCheck := None;
      }
      callers := callers - {c};
      if !raised {
        lastCheck := Some(now);
        if rerunForced {
          rerunForced := false;
          CheckAndUpdateConnectivity(c, true, now);
        }
      }
      step := step + 1;
    }

    method ResumeFollower(c: CallerId)
      requires Enabled(View(), FollowerResume(c))
      modifies this
      ensures View() == Next(old(View()), FollowerResume(c))
    {
      callers := callers - {c};
      step := step + 1;
    }

    /** The shield keeps the cancellation of a follower away from the probe. */
    method CancelFollower(c: CallerId)
      requires Enabled(View(), FollowerCancel(c))
      modifies this
      ensures View() == Next(old(View()), FollowerCancel(c))
    {
      callers := callers - {c};
      step := step + 1;
    }

    /** The owner hands its cancellation to the probe and keeps waiting for it. */
    method CancelOwner(c: CallerId)
      requires Enabled(View(), OwnerCancel(c))
      modifies this
      ensures View() == Next(old(View()), OwnerCancel(c))
    {
      callers := callers[c := Cancelling(callers[c].probe)];
      step := step + 1;
    }
  }
}
