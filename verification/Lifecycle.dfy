/** Shutting down and stopping the Supervisor.

    Every stretch of code between two awaits of `shutdown` or `stop` is one atomic step of
    one caller.  Any number of callers interleave, each may fail or be cancelled at every
    await, and other parts of the program, such as backups, move the state between steps.
    The methods of class `Core` are the code of the steps; `Next` is what they do. */
module LifecycleSpec {
  import opened Wrappers

  datatype CoreState = Initialize | Setup | Startup | Running | Freeze | Shutdown | Stopping | Close

  type CallerId = nat

  /** Where a suspended caller stands: the first three inside the try block of `shutdown`,
      then waiting for its event, then inside `stop`. */
  datatype Pc =
    | MarkingShutdown
    | TearingDown
    | StoppingPlugins
    | Waiting
    | StoringLastBoot
    | MarkingStopping
    | StoppingStage1
    | StoppingStage2
    | MarkingClose

  /** The fields of the object, its callers, and what has happened so far: how often the
      state was claimed for shutting down and for stopping, how often teardown and the stop
      stages began, and how often others moved the state away again. */
  datatype State = State(
    state: CoreState,
    event: bool,
    callers: map<CallerId, Pc>,
    shutdownClaims: nat,
    teardowns: nat,
    stopClaims: nat,
    stage1s: nat,
    stage2s: nat,
    loopStops: nat,
    escapes: nat,       // moves by others out of Shutdown, Stopping or Close
    stopEscapes: nat)   // those out of Stopping or Close

  datatype Event =
    | CallShutdown(caller: CallerId)
    | CallStop(caller: CallerId)
    | Step(caller: CallerId, ok: bool)   // not ok: an exception or a cancellation
    | Other(to: CoreState)               // somebody else sets the state

  const INIT := State(Initialize, false, map[], 0, 0, 0, 0, 0, 0, 0, 0)

  predicate Starting(s: CoreState) {
    s.Initialize? || s.Setup? || s.Startup?
  }

  predicate Ending(s: CoreState) {
    s.Stopping? || s.Close?
  }

  predicate Down(s: CoreState) {
    s.Shutdown? || Ending(s)
  }

  predicate Enabled(s: State, e: Event) {
    match e
    case CallShutdown(c) => c !in s.callers
    case CallStop(c) => c !in s.callers
    case Step(c, ok) => c in s.callers && (s.callers[c].Waiting? && ok ==> s.event)
    case Other(to) => !Down(to)
  }

  function At(s: State, c: CallerId, pc: Pc): State {
    s.(callers := s.callers[c := pc])
  }

  function Leave(s: State, c: CallerId): State {
    s.(callers := s.callers - {c})
  }

  function EnterShutdown(s: State, c: CallerId): State {
    if Starting(s.state) || Ending(s.state) then s
    else if s.state.Shutdown? then if s.event then s else At(s, c, Waiting)
    else At(s, c, MarkingShutdown).(state := Shutdown, shutdownClaims := s.shutdownClaims + 1)
  }

  /** The finally block of `shutdown`. */
  function EndTry(s: State, c: CallerId): State {
    Leave(s, c).(event := true)
  }

  function BeginStop(s: State, c: CallerId): State {
    if Ending(s.state) then Leave(s, c)
    else At(s, c, MarkingStopping).(state := Stopping, stopClaims := s.stopClaims + 1)
  }

  function Advance(s: State, c: CallerId): State
    requires c in s.callers
  {
    match s.callers[c]
    case MarkingShutdown => At(s, c, TearingDown).(teardowns := s.teardowns + 1)
    case TearingDown => At(s, c, StoppingPlugins)
    case StoppingPlugins => EndTry(s, c)
    case Waiting => Leave(s, c)
    case StoringLastBoot => BeginStop(s, c)
    case MarkingStopping => At(s, c, StoppingStage1).(stage1s := s.stage1s + 1)
    case StoppingStage1 => At(s, c, StoppingStage2).(stage2s := s.stage2s + 1)
    case StoppingStage2 =>
      if s.state.Close? then Leave(s, c).(loopStops := s.loopStops + 1) else At(s, c, MarkingClose).(state := Close)
    case MarkingClose => Leave(s, c).(loopStops := s.loopStops + 1)
  }

  predicate InTry(s: State, c: CallerId) {
    c in s.callers && (s.callers[c].MarkingShutdown? || s.callers[c].TearingDown? || s.callers[c].StoppingPlugins?)
  }

  function Next(s: State, e: Event): State
    requires Enabled(s, e)
  {
    match e
    case CallShutdown(c) => EnterShutdown(s, c)
    case CallStop(c) => if s.state.Running? || s.state.Shutdown? then At(s, c, StoringLastBoot) else BeginStop(s, c)
    case Step(c, ok) => if ok then Advance(s, c) else if InTry(s, c) then EndTry(s, c) else Leave(s, c)
    case Other(to) =>
      s.(state := to,
         escapes := s.escapes + if Down(s.state) then 1 else 0,
         stopEscapes := s.stopEscapes + if Ending(s.state) then 1 else 0)
  }

  function Run(es: seq<Event>): Option<State> {
    if es == [] then Some(INIT)
    else
      var before := Run(es[..|es| - 1]);
      var last := es[|es| - 1];
      if before.Some? && Enabled(before.value, last) then Some(Next(before.value, last)) else None
  }

  lemma LastStep(es: seq<Event>)
    requires Run(es).Some? && es != []
    ensures var s := Run(es[..|es| - 1]); var e := es[|es| - 1];
            s.Some? && Enabled(s.value, e) && Run(es).value == Next(s.value, e)
  {
  }

  // ---------------------------------------------------------------- how often things begin

  ghost function Those(s: State, pc: Pc): set<CallerId> {
    set c | c in s.callers && s.callers[c] == pc
  }

  ghost function Count(s: State, pc: Pc): nat {
    |Those(s, pc)|
  }

  ghost predicate Stands(s: State, c: CallerId, pc: Pc) {
    c in s.callers && s.callers[c] == pc
  }

  function One(b: bool): nat {
    if b then 1 else 0
  }

  /** A step of `c` changes the counts by `c` itself. */
  lemma CountMoved(s: State, t: State, c: CallerId, which: Pc)
    requires forall d :: d != c ==> (d in t.callers <==> d in s.callers)
    requires forall d :: d != c && d in s.callers ==> t.callers[d] == s.callers[d]
    ensures Count(t, which) == Count(s, which) - One(Stands(s, c, which)) + One(Stands(t, c, which))
  {
    assert Those(t, which) - {c} == Those(s, which) - {c};
    assert |Those(s, which)| == |Those(s, which) - {c}| + One(Stands(s, c, which));
    assert |Those(t, which)| == |Those(t, which) - {c}| + One(Stands(t, c, which));
  }

  ghost predicate ShutdownPaid(s: State) {
    && s.teardowns + Count(s, MarkingShutdown) <= s.shutdownClaims
    && s.shutdownClaims <= s.escapes + One(Down(s.state))
  }

  ghost predicate StopPaid(s: State) {
    && s.stage1s + Count(s, MarkingStopping) <= s.stopClaims
    && s.stage2s + Count(s, StoppingStage1) <= s.stage1s
    && s.loopStops + Count(s, StoppingStage2) + Count(s, MarkingClose) <= s.stage2s
    && s.stopClaims <= s.stopEscapes + One(Ending(s.state))
  }

  /** Every start is paid for by a claim, and every claim but one by a move of others. */
  ghost predicate Paid(s: State) {
    ShutdownPaid(s) && StopPaid(s)
  }

  lemma OthersKeepPaid(s: State, to: CoreState)
    requires Paid(s) && !Down(to)
    ensures Paid(Next(s, Other(to)))
  {
    assert forall which :: Those(Next(s, Other(to)), which) == Those(s, which);
  }

  lemma CountsMoved(s: State, t: State, c: CallerId)
    requires forall d :: d != c ==> (d in t.callers <==> d in s.callers)
    requires forall d :: d != c && d in s.callers ==> t.callers[d] == s.callers[d]
    ensures forall pc :: pc in COUNTED ==> Count(t, pc) == Count(s, pc) - One(Stands(s, c, pc)) + One(Stands(t, c, pc))
  {
    forall pc | pc in COUNTED
      ensures Count(t, pc) == Count(s, pc) - One(Stands(s, c, pc)) + One(Stands(t, c, pc))
    {
      CountMoved(s, t, c, pc);
    }
  }

  const COUNTED := {MarkingShutdown, MarkingStopping, StoppingStage1, StoppingStage2, MarkingClose}

  lemma LeavingKeepsPaid(s: State, c: CallerId)
    requires Paid(s) && c in s.callers
    ensures Paid(Leave(s, c))
  {
    CountsMoved(s, Leave(s, c), c);
    hide Count;
  }

  lemma ShutdownClaimKeepsPaid(s: State, c: CallerId)
    requires Paid(s) && c !in s.callers
    ensures Paid(EnterShutdown(s, c))
  {
    CountsMoved(s, EnterShutdown(s, c), c);
    hide Count;
  }

  lemma StopClaimKeepsPaid(s: State, c: CallerId)
    requires Paid(s)
    ensures Paid(BeginStop(s, c))
  {
    CountsMoved(s, BeginStop(s, c), c);
    hide Count;
  }

  lemma ShutdownAdvanceKeepsPaid(s: State, c: CallerId)
    requires Paid(s) && c in s.callers && (InTry(s, c) || s.callers[c].Waiting?)
    ensures Paid(Advance(s, c))
  {
    CountsMoved(s, Advance(s, c), c);
    hide Count;
  }

  lemma StopAdvanceKeepsPaid(s: State, c: CallerId)
    requires Paid(s) && c in s.callers && !InTry(s, c) && !s.callers[c].Waiting?
    ensures Paid(Advance(s, c))
  {
    if s.callers[c].StoringLastBoot? {
      StopClaimKeepsPaid(s, c);
    } else {
      StageKeepsPaid(s, c);
    }
  }

  lemma StageKeepsPaid(s: State, c: CallerId)
    requires Paid(s) && c in s.callers && Stopper(s.callers[c])
    ensures Paid(Advance(s, c))
  {
    CountsMoved(s, Advance(s, c), c);
    hide Count;
  }

  lemma SuspendingKeepsPaid(s: State, c: CallerId)
    requires Paid(s) && c !in s.callers
    ensures Paid(At(s, c, StoringLastBoot))
  {
    CountsMoved(s, At(s, c, StoringLastBoot), c);
    hide Count;
  }

  lemma StepKeepsPaid(s: State, e: Event)
    requires Paid(s) && Enabled(s, e)
    ensures Paid(Next(s, e))
  {
    hide Paid, Advance, EnterShutdown, BeginStop;
    match e {
      case Other(to) => OthersKeepPaid(s, to);
      case CallShutdown(c) => ShutdownClaimKeepsPaid(s, c);
      case CallStop(c) =>
        SuspendingKeepsPaid(s, c);
        StopClaimKeepsPaid(s, c);
      case Step(c, ok) =>
        if !ok {
          LeavingKeepsPaid(s, c);
          EventIsFree(Leave(s, c));
        } else if InTry(s, c) || s.callers[c].Waiting? {
          ShutdownAdvanceKeepsPaid(s, c);
        } else {
          StopAdvanceKeepsPaid(s, c);
        }
    }
  }

  lemma EventIsFree(s: State)
    requires Paid(s)
    ensures Paid(s.(event := true))
  {
    assert forall pc :: Those(s.(event := true), pc) == Those(s, pc);
  }

  /** In every run, teardown begins at most once more often than others move the state out
      of Shutdown, Stopping or Close; the stop stages and the end of the event loop, at most
      once more often than others move it out of Stopping or Close. */
  lemma {:induction false} StartsAreBounded(es: seq<Event>)
    requires Run(es).Some?
    ensures var s := Run(es).value;
            && Paid(s)
            && s.teardowns <= s.escapes + 1
            && s.loopStops <= s.stage2s <= s.stage1s <= s.stopEscapes + 1
  {
    if es != [] {
      LastStep(es);
      StartsAreBounded(es[..|es| - 1]);
      StepKeepsPaid(Run(es[..|es| - 1]).value, es[|es| - 1]);
    }
    hide *;
  }

  /** In step `i` somebody else moves the state out of Shutdown, Stopping or Close. */
  ghost predicate MovesAwayAt(es: seq<Event>, i: int) {
    0 <= i < |es| && es[i].Other? && Run(es[..i]).Some? && Down(Run(es[..i]).value.state)
  }

  lemma {:induction false} NoEscapes(es: seq<Event>)
    requires Run(es).Some? && forall i :: 0 <= i < |es| ==> !MovesAwayAt(es, i)
    ensures Run(es).value.escapes == 0 && Run(es).value.stopEscapes == 0
  {
    if es != [] {
      LastStep(es);
      var n := |es| - 1;
      forall i | 0 <= i < n
        ensures !MovesAwayAt(es[..n], i)
      {
        assert es[..n][..i] == es[..i];
        assert !MovesAwayAt(es, i);
      }
      NoEscapes(es[..n]);
      assert !MovesAwayAt(es, n);
    }
  }

  /** When nobody else moves the state out of Shutdown, Stopping or Close, teardown begins at
      most once and so does each stop stage, for any number of callers. */
  lemma ShutdownAndStopRunOnce(es: seq<Event>)
    requires Run(es).Some? && forall i :: 0 <= i < |es| ==> !MovesAwayAt(es, i)
    ensures var s := Run(es).value;
            s.teardowns <= 1 && s.stage1s <= 1 && s.stage2s <= 1 && s.loopStops <= 1
  {
    NoEscapes(es);
    StartsAreBounded(es);
  }

  function Append(es: seq<Event>, e: Event): (r: seq<Event>)
    ensures Run(es).Some? && Enabled(Run(es).value, e) ==> Run(r) == Some(Next(Run(es).value, e))
  {
    var r := es + [e];
    assert r[..|r| - 1] == es;
    r
  }

  /** Nobody is on the way, and the state is Running. */
  ghost predicate AtRest(es: seq<Event>) {
    Run(es).Some? && Run(es).value.state.Running? && Run(es).value.callers == map[]
  }

  lemma ShutdownBegins(es: seq<Event>) returns (r: seq<Event>)
    requires AtRest(es)
    ensures Run(r) == Some(Run(es).value.(state := Shutdown, callers := map[0 := TearingDown],
                                          shutdownClaims := Run(es).value.shutdownClaims + 1,
                                          teardowns := Run(es).value.teardowns + 1))
  {
    r := Append(es, CallShutdown(0));
    assert Run(r).value.callers == map[0 := MarkingShutdown];
    r := Append(r, Step(0, true));
    assert Run(r).value.callers == map[0 := TearingDown];
  }

  /** A whole shutdown, after which somebody puts the state back. */
  lemma Round(es: seq<Event>) returns (r: seq<Event>)
    requires AtRest(es)
    ensures AtRest(r) && Run(r).value.event
    ensures Run(r).value.escapes == Run(es).value.escapes + 1
    ensures Run(r).value.teardowns == Run(es).value.teardowns + 1
  {
    r := ShutdownBegins(es);
    r := Append(r, Step(0, true));
    r := Append(r, Step(0, true));
    assert Run(r).value.callers == map[];
    r := Append(r, Other(Running));
  }

  lemma {:induction false} Rounds(k: nat) returns (es: seq<Event>)
    ensures AtRest(es) && Run(es).value.escapes == k && Run(es).value.teardowns == k
    ensures k > 0 ==> Run(es).value.event
  {
    if k == 0 {
      es := Append([], Other(Running));
    } else {
      es := Rounds(k - 1);
      es := Round(es);
    }
  }

  /** The bound is tight: a task that puts the state back to Running, as the end of a backup
      does, allows one more teardown every time. */
  lemma TeardownRepeatsAfterEscapes(k: nat) returns (es: seq<Event>)
    ensures Run(es).Some? && Run(es).value.escapes == k && Run(es).value.teardowns == k + 1
  {
    es := Rounds(k);
    es := ShutdownBegins(es);
  }

  // ---------------------------------------------------------------- nobody waits in vain

  ghost predicate SomeoneInTry(s: State) {
    exists c :: InTry(s, c)
  }

  /** Whoever waits, or would have to, has somebody in the try block to wait for. */
  ghost predicate NoOneStranded(s: State) {
    && (s.state.Shutdown? && !s.event ==> SomeoneInTry(s))
    && (!s.event && (exists c :: c in s.callers && s.callers[c].Waiting?) ==> SomeoneInTry(s))
  }

  lemma StepKeepsNoOneStranded(s: State, e: Event)
    requires NoOneStranded(s) && Enabled(s, e)
    ensures NoOneStranded(Next(s, e))
  {
    var t := Next(s, e);
    if !t.event {
      if c :| InTry(s, c) {
        assert InTry(t, c);
      } else {
        assert forall c :: c in t.callers && t.callers[c].Waiting? ==> c in s.callers && s.callers[c].Waiting?;
        if t.state.Shutdown? {
          assert InTry(t, e.caller);
        }
      }
    }
  }

  /** In every run, whatever others do to the state short of setting it to Shutdown: in state
      Shutdown with the event unset, or with a waiter that cannot go on, some caller is in the
      try block. */
  lemma {:induction false} NoWaiterIsStranded(es: seq<Event>)
    requires Run(es).Some?
    ensures NoOneStranded(Run(es).value)
  {
    if es != [] {
      LastStep(es);
      NoWaiterIsStranded(es[..|es| - 1]);
      StepKeepsNoOneStranded(Run(es[..|es| - 1]).value, es[|es| - 1]);
    }
  }

  /** Steps of one caller from the `i`-th event on. */
  ghost function StepsOf(es: seq<Event>, i: nat, c: CallerId): nat
    requires i <= |es|
  {
    if i == |es| then 0
    else StepsOf(es[..|es| - 1], i, c) + if es[|es| - 1].Step? && es[|es| - 1].caller == c then 1 else 0
  }

  ghost function Remaining(pc: Pc): int {
    match pc
    case MarkingShutdown => 3
    case TearingDown => 2
    case StoppingPlugins => 1
    case _ => 0
  }

  lemma StepInTry(s: State, e: Event, c: CallerId)
    requires Enabled(s, e)
    ensures s.event ==> Next(s, e).event
    ensures InTry(s, c) ==>
              var t := Next(s, e);
              t.event || (InTry(t, c) && Remaining(t.callers[c]) + One(e.Step? && e.caller == c) <= Remaining(s.callers[c]))
  {
  }

  /** A caller in the try block sets the event by its third step, and it stays set. */
  lemma {:induction false} TryEndsInThreeSteps(es: seq<Event>, i: nat, c: CallerId)
    requires i <= |es| && Run(es).Some?
    requires Run(es[..i]).Some? && (Run(es[..i]).value.event || InTry(Run(es[..i]).value, c))
    ensures var s := Run(es).value;
            s.event || (InTry(s, c) && StepsOf(es, i, c) + Remaining(s.callers[c]) <= 3)
    ensures Run(es[..i]).value.event ==> Run(es).value.event
  {
    if i == |es| {
      assert es[..i] == es;
    } else {
      LastStep(es);
      var n := |es| - 1;
      assert es[..n][..i] == es[..i];
      TryEndsInThreeSteps(es[..n], i, c);
      StepInTry(Run(es[..n]).value, es[n], c);
      hide Next, Run, Enabled, Remaining;
      assert StepsOf(es, i, c) == StepsOf(es[..n], i, c) + One(es[n].Step? && es[n].caller == c);
    }
  }

  /** So every waiter is released: somebody in the try block ends its wait within three of
      its own steps, whatever else happens in between. */
  lemma WaitersAreReleased(es: seq<Event>, i: nat, w: CallerId) returns (c: CallerId)
    requires i <= |es| && Run(es).Some? && Run(es[..i]).Some?
    requires w in Run(es[..i]).value.callers && Run(es[..i]).value.callers[w].Waiting?
    ensures Run(es[..i]).value.event || InTry(Run(es[..i]).value, c)
    ensures Run(es[..i]).value.event || StepsOf(es, i, c) >= 3 ==> Run(es).value.event
  {
    NoWaiterIsStranded(es[..i]);
    c := 0;
    if !Run(es[..i]).value.event {
      c :| InTry(Run(es[..i]).value, c);
    }
    TryEndsInThreeSteps(es, i, c);
  }

  // ---------------------------------------------------------------- what being released means

  /** One claim at a time, unless others interfere. */
  ghost predicate OneTry(s: State) {
    s.escapes == 0 ==>
      && (forall c, d :: InTry(s, c) && InTry(s, d) ==> c == d)
      && (s.event || SomeoneInTry(s) ==> Down(s.state))
      && (s.event ==> !SomeoneInTry(s))
  }

  lemma StepKeepsOneTry(s: State, e: Event)
    requires OneTry(s) && Enabled(s, e)
    ensures OneTry(Next(s, e))
  {
    var t := Next(s, e);
    if t.escapes == 0 {
      assert forall c :: InTry(s, c) ==> SomeoneInTry(s);
      assert forall c :: InTry(t, c) ==> InTry(s, c) || (!Down(s.state) && e == CallShutdown(c));
      if SomeoneInTry(t) {
        var c :| InTry(t, c);
        assert Down(t.state);
      }
      if t.event && !s.event {
        assert InTry(s, e.caller) && t.state == s.state;
        assert !InTry(t, e.caller);
      }
      assert t.event ==> Down(t.state);
    }
  }

  /** Unless somebody else moved the state, a caller that finds the event set, or is released
      by it, returns only after the one teardown has ended. */
  lemma {:induction false} EventMeansTeardownEnded(es: seq<Event>)
    requires Run(es).Some?
    ensures OneTry(Run(es).value)
    ensures Run(es).value.escapes == 0 && Run(es).value.event ==> forall c :: !InTry(Run(es).value, c)
  {
    if es != [] {
      LastStep(es);
      EventMeansTeardownEnded(es[..|es| - 1]);
      StepKeepsOneTry(Run(es[..|es| - 1]).value, es[|es| - 1]);
    }
    var s := Run(es).value;
    assert forall c :: InTry(s, c) ==> SomeoneInTry(s);
  }

  /** Unless others moved the state away from stopping, it goes on to its end. */
  ghost predicate OneStop(s: State) {
    s.stopEscapes == 0 ==>
      && (s.stopClaims > 0 ==> Ending(s.state))
      && (forall c :: c in s.callers && s.callers[c].MarkingClose? ==> s.state.Close?)
      && (s.loopStops > 0 ==> s.state.Close?)
      && (forall c :: c in s.callers && Stopper(s.callers[c]) ==> s.stopClaims > 0)
      && (s.state.Close? ==> s.stage2s > 0)
  }

  predicate Stopper(pc: Pc) {
    pc.MarkingStopping? || pc.StoppingStage1? || pc.StoppingStage2? || pc.MarkingClose?
  }

  ghost predicate StagesInOrder(s: State) {
    forall c :: c in s.callers && (s.callers[c].StoppingStage2? || s.callers[c].MarkingClose?) ==> s.stage2s > 0
  }

  lemma AdvanceKeepsOneStop(s: State, c: CallerId)
    requires OneStop(s) && StagesInOrder(s) && c in s.callers
    ensures OneStop(Advance(s, c)) && StagesInOrder(Advance(s, c))
  {
  }

  lemma StepKeepsOneStop(s: State, e: Event)
    requires OneStop(s) && StagesInOrder(s) && Enabled(s, e)
    ensures OneStop(Next(s, e)) && StagesInOrder(Next(s, e))
  {
    if e.Step? && e.ok {
      AdvanceKeepsOneStop(s, e.caller);
    }
    hide Advance;
  }

  /** Unless somebody else moves the state away, a claimed stop stays claimed; the state becomes
      close only after both stages have begun, and the event loop is stopped only in it. */
  lemma {:induction false} StopEndsInClose(es: seq<Event>)
    requires Run(es).Some?
    ensures OneStop(Run(es).value) && StagesInOrder(Run(es).value)
  {
    if es != [] {
      LastStep(es);
      StopEndsInClose(es[..|es| - 1]);
      StepKeepsOneStop(Run(es[..|es| - 1]).value, es[|es| - 1]);
    }
  }

  /** The event is never cleared, so after such a move a second shutdown holds nobody: a caller
      that finds it in progress returns at once. */
  lemma StaleEventHoldsNobody() returns (es: seq<Event>)
    ensures Run(es).Some?
    ensures var s := Run(es).value;
            && s.escapes == 1 && s.state.Shutdown? && InTry(s, 0) && s.callers[0].TearingDown?
            && Enabled(s, CallShutdown(1)) && Next(s, CallShutdown(1)) == s
  {
    es := Rounds(1);
    es := ShutdownBegins(es);
  }

  /** A shutdown in progress holds further callers back. */
  ghost predicate HoldsBack(s: State) {
    s.state.Shutdown? && SomeoneInTry(s) ==> !s.event
  }

  ghost predicate AlwaysHoldsBack(k: nat) {
    forall es :: Run(es).Some? && Run(es).value.escapes <= k ==> HoldsBack(Run(es).value)
  }

  /** The documented promise, that callers await a shutdown in progress, holds in all runs with
      no move by others, and already fails for some run with a single one. */
  lemma CallersAwaitExactlyWithoutEscapes(k: nat)
    ensures AlwaysHoldsBack(k) <==> k == 0
  {
    if k == 0 {
      forall es | Run(es).Some? && Run(es).value.escapes <= k
        ensures HoldsBack(Run(es).value)
      {
        EventMeansTeardownEnded(es);
      }
    } else {
      var es := StaleEventHoldsNobody();
      assert SomeoneInTry(Run(es).value);
      assert !HoldsBack(Run(es).value);
    }
  }

  /** In step `i` a caller leaves the try block. */
  ghost predicate TryEndsAt(es: seq<Event>, i: int) {
    && 0 <= i < |es| && es[i].Step? && Run(es[..i]).Some?
    && InTry(Run(es[..i]).value, es[i].caller)
    && (!es[i].ok || Run(es[..i]).value.callers[es[i].caller].StoppingPlugins?)
  }

  ghost predicate SomeTryEnded(es: seq<Event>) {
    exists i :: TryEndsAt(es, i)
  }

  lemma TryEndedBefore(es: seq<Event>)
    requires es != []
    ensures SomeTryEnded(es) <==> SomeTryEnded(es[..|es| - 1]) || TryEndsAt(es, |es| - 1)
  {
    var n := |es| - 1;
    forall i | 0 <= i < n
      ensures TryEndsAt(es, i) <==> TryEndsAt(es[..n], i)
    {
      assert es[..n][..i] == es[..i];
    }
    hide Run;
  }

  lemma StepSetsEvent(s: State, e: Event)
    requires Enabled(s, e)
    ensures Next(s, e).event <==> s.event || (e.Step? && InTry(s, e.caller) && (!e.ok || s.callers[e.caller].StoppingPlugins?))
  {
  }

  /** In every run the event is set exactly if some caller has left the try block, however it
      left and whichever shutdown that was. */
  lemma {:induction false} EventIsSetExactly(es: seq<Event>)
    requires Run(es).Some?
    ensures Run(es).value.event <==> SomeTryEnded(es)
  {
    if es != [] {
      LastStep(es);
      EventIsSetExactly(es[..|es| - 1]);
      StepSetsEvent(Run(es[..|es| - 1]).value, es[|es| - 1]);
      TryEndedBefore(es);
    }
  }

  /** So a further caller waits exactly if a shutdown has claimed the state and no caller has
      ever left the try block, and a waiter goes on exactly once one has. */
  lemma CallerWaitsExactly(es: seq<Event>, c: CallerId)
    requires Run(es).Some?
    ensures var s := Run(es).value;
            && (c !in s.callers ==>
                  (Stands(Next(s, CallShutdown(c)), c, Waiting) <==> s.state.Shutdown? && !SomeTryEnded(es)))
            && (Stands(s, c, Waiting) ==> (Enabled(s, Step(c, true)) <==> SomeTryEnded(es)))
  {
    EventIsSetExactly(es);
  }

  // ---------------------------------------------------------------- what an undisturbed caller does

  function Steps(c: CallerId, n: nat): seq<Event> {
    if n == 0 then [] else Steps(c, n - 1) + [Step(c, true)]
  }

  ghost predicate Leads(s: State, e: Event, t: State) {
    Enabled(s, e) && Next(s, e) == t
  }

  lemma StepLeads(es: seq<Event>, c: CallerId, n: nat, t: State)
    requires Run(es + Steps(c, n)).Some? && Leads(Run(es + Steps(c, n)).value, Step(c, true), t)
    ensures Run(es + Steps(c, n + 1)) == Some(t)
  {
    var before := es + Steps(c, n);
    assert es + Steps(c, n + 1) == before + [Step(c, true)];
    assert (before + [Step(c, true)])[..|before|] == before;
  }

  lemma CallLeads(es: seq<Event>, e: Event, c: CallerId, t: State)
    requires Run(es).Some? && Leads(Run(es).value, e, t)
    ensures Run(es + [e] + Steps(c, 0)) == Some(t)
  {
    assert (es + [e])[..|es|] == es;
    assert es + [e] + Steps(c, 0) == es + [e];
  }

  /** The state after a shutdown by `c` has claimed it from `s`, with the caller at `pc`. */
  function Claimed(s: State, c: CallerId, pc: Pc): State {
    s.(state := Shutdown, callers := s.callers[c := pc], shutdownClaims := s.shutdownClaims + 1,
       teardowns := s.teardowns + if pc.MarkingShutdown? then 0 else 1)
  }

  /** After a shutdown that went through. */
  function ShutDown(s: State): State {
    s.(state := Shutdown, event := true, shutdownClaims := s.shutdownClaims + 1, teardowns := s.teardowns + 1)
  }

  lemma ShutdownLeads(s: State, c: CallerId)
    requires c !in s.callers && (s.state == Running || s.state == Freeze)
    ensures Leads(s, CallShutdown(c), Claimed(s, c, MarkingShutdown))
    ensures Leads(Claimed(s, c, MarkingShutdown), Step(c, true), Claimed(s, c, TearingDown))
    ensures Leads(Claimed(s, c, TearingDown), Step(c, true), Claimed(s, c, StoppingPlugins))
    ensures Leads(Claimed(s, c, StoppingPlugins), Step(c, true), ShutDown(s))
  {
    assert s.callers[c := MarkingShutdown][c := TearingDown] == s.callers[c := TearingDown];
    assert s.callers[c := TearingDown][c := StoppingPlugins] == s.callers[c := StoppingPlugins];
    assert s.callers[c := StoppingPlugins] - {c} == s.callers;
  }

  /** A shutdown from Running or Freeze in which nothing fails: after one step the teardown has
      begun, after three the event is set, and the caller is gone. */
  lemma ShutdownCompletes(es: seq<Event>, c: CallerId)
    requires Run(es).Some? && c !in Run(es).value.callers
    requires Run(es).value.state == Running || Run(es).value.state == Freeze
    ensures Run(es + [CallShutdown(c)] + Steps(c, 1)) == Some(Claimed(Run(es).value, c, TearingDown))
    ensures Run(es + [CallShutdown(c)] + Steps(c, 3)) == Some(ShutDown(Run(es).value))
  {
    hide Run, Steps, Leads, Claimed, ShutDown;
    var s, begun := Run(es).value, es + [CallShutdown(c)];
    ShutdownLeads(s, c);
    CallLeads(es, CallShutdown(c), c, Claimed(s, c, MarkingShutdown));
    StepLeads(begun, c, 0, Claimed(s, c, TearingDown));
    StepLeads(begun, c, 1, Claimed(s, c, StoppingPlugins));
    StepLeads(begun, c, 2, ShutDown(s));
  }

  /** The state in the course of a stop that `c` claimed from `s`. */
  function StoppingAt(s: State, c: CallerId, pc: Pc): State {
    s.(state := if pc.MarkingClose? then Close else Stopping, callers := s.callers[c := pc],
       stopClaims := s.stopClaims + 1,
       stage1s := s.stage1s + if pc.MarkingStopping? then 0 else 1,
       stage2s := s.stage2s + if pc.MarkingStopping? || pc.StoppingStage1? then 0 else 1)
  }

  /** After a stop that went through: each stage has run once, the state is Close, and the event
      loop is stopped. */
  function StoppedFrom(s: State): State {
    s.(state := Close, stopClaims := s.stopClaims + 1, stage1s := s.stage1s + 1, stage2s := s.stage2s + 1,
       loopStops := s.loopStops + 1)
  }

  lemma StopLeads(s: State, c: CallerId)
    requires c !in s.callers
    ensures Leads(StoppingAt(s, c, MarkingStopping), Step(c, true), StoppingAt(s, c, StoppingStage1))
    ensures Leads(StoppingAt(s, c, StoppingStage1), Step(c, true), StoppingAt(s, c, StoppingStage2))
    ensures Leads(StoppingAt(s, c, StoppingStage2), Step(c, true), StoppingAt(s, c, MarkingClose))
    ensures Leads(StoppingAt(s, c, MarkingClose), Step(c, true), StoppedFrom(s))
  {
    assert s.callers[c := MarkingStopping][c := StoppingStage1] == s.callers[c := StoppingStage1];
    assert s.callers[c := StoppingStage1][c := StoppingStage2] == s.callers[c := StoppingStage2];
    assert s.callers[c := StoppingStage2][c := MarkingClose] == s.callers[c := MarkingClose];
    assert s.callers[c := MarkingClose] - {c} == s.callers;
  }

  lemma StopClaimLeads(s: State, c: CallerId)
    requires c !in s.callers && s.state != Stopping && s.state != Close
    ensures s.state != Running && s.state != Shutdown ==> Leads(s, CallStop(c), StoppingAt(s, c, MarkingStopping))
    ensures s.state == Running || s.state == Shutdown ==>
              && Leads(s, CallStop(c), At(s, c, StoringLastBoot))
              && Leads(At(s, c, StoringLastBoot), Step(c, true), StoppingAt(s, c, MarkingStopping))
  {
    assert s.callers[c := StoringLastBoot][c := MarkingStopping] == s.callers[c := MarkingStopping];
  }

  /** A stop in which nothing fails, from any state but Stopping and Close, runs to its end: four
      steps, and one more before them from Running and Shutdown, to store the last boot. */
  lemma StopCompletes(es: seq<Event>, c: CallerId)
    requires Run(es).Some? && c !in Run(es).value.callers
    requires Run(es).value.state != Stopping && Run(es).value.state != Close
    ensures var n := if Run(es).value.state == Running || Run(es).value.state == Shutdown then 5 else 4;
            Run(es + [CallStop(c)] + Steps(c, n)) == Some(StoppedFrom(Run(es).value))
  {
    hide Run, Steps, Leads, StoppingAt, StoppedFrom, At;
    var s, begun := Run(es).value, es + [CallStop(c)];
    StopClaimLeads(s, c);
    var n := 0;
    if s.state == Running || s.state == Shutdown {
      CallLeads(es, CallStop(c), c, At(s, c, StoringLastBoot));
      StepLeads(begun, c, 0, StoppingAt(s, c, MarkingStopping));
      n := 1;
    } else {
      CallLeads(es, CallStop(c), c, StoppingAt(s, c, MarkingStopping));
    }
    StopLeads(s, c);
    StepLeads(begun, c, n, StoppingAt(s, c, StoppingStage1));
    StepLeads(begun, c, n + 1, StoppingAt(s, c, StoppingStage2));
    StepLeads(begun, c, n + 2, StoppingAt(s, c, MarkingClose));
    StepLeads(begun, c, n + 3, StoppedFrom(s));
  }

  /** Once the event is set, a waiter can go on, and returns without doing anything else. */
  lemma WaitersReturn(s: State, c: CallerId)
    requires Stands(s, c, Waiting) && s.event
    ensures Enabled(s, Step(c, true)) && c !in Next(s, Step(c, true)).callers
    ensures Next(s, Step(c, true)).(callers := s.callers) == s
    ensures forall d, pc :: d != c && Stands(s, d, pc) ==> Stands(Next(s, Step(c, true)), d, pc)
  {
  }

  /** A shutdown called before the startup is complete, or when the Supervisor is stopping, and a
      stop called when it is stopping, do nothing at all. */
  lemma LateAndEarlyCallsDoNothing(s: State, c: CallerId)
    requires c !in s.callers
    ensures s.state in {Initialize, Setup, Startup, Stopping, Close} ==> Next(s, CallShutdown(c)) == s
    ensures s.state in {Stopping, Close} ==> Next(s, CallStop(c)) == s
  {
    assert s.callers - {c} == s.callers;
  }

  ghost predicate HasRun(es: seq<Event>) {
    exists i :: 0 <= i < |es| && (es[i] == Other(Running) || es[i] == Other(Freeze))
  }

  /** Nothing is torn down before others have set the state to Running or Freeze. */
  lemma {:induction false} NothingIsTornDownBeforeTheStartup(es: seq<Event>)
    requires Run(es).Some?
    ensures var s := Run(es).value;
            s.shutdownClaims > 0 || s.teardowns > 0 || s.event || s.state == Running || s.state == Freeze || s.state == Shutdown
            || SomeoneInTry(s)
            ==> HasRun(es)
  {
    if es != [] {
      var n := |es| - 1;
      LastStep(es);
      NothingIsTornDownBeforeTheStartup(es[..n]);
      if HasRun(es[..n]) {
        var i :| 0 <= i < n && (es[..n][i] == Other(Running) || es[..n][i] == Other(Freeze));
        assert es[i] == es[..n][i];
      } else {
        BeforeTheStartup(Run(es[..n]).value, es[n]);
      }
    }
  }

  ghost predicate NotStarted(s: State) {
    && s.shutdownClaims == 0 && s.teardowns == 0 && !s.event && !SomeoneInTry(s)
    && s.state != Running && s.state != Freeze && s.state != Shutdown
  }

  lemma BeforeTheStartup(s: State, e: Event)
    requires NotStarted(s) && Enabled(s, e)
    ensures NotStarted(Next(s, e)) || e == Other(Running) || e == Other(Freeze)
  {
    var t := Next(s, e);
    assert forall c :: !InTry(s, c);
    assert !e.Other? ==> !InTry(s, e.caller);
    forall c
      ensures !InTry(t, c)
    {
      assert !InTry(s, c);
    }
  }
}

module Lifecycle {
  import opened LifecycleSpec

  /** The part of the core object that shuts down and stops, with its callers.  Each method
      is one stretch of code between two awaits. */
  class Core {
    var state: CoreState
    var shutdownEvent: bool
    var callers: map<CallerId, Pc>
    ghost var shutdownClaims: nat
    ghost var teardowns: nat
    ghost var stopClaims: nat
    ghost var stage1s: nat
    ghost var stage2s: nat
    ghost var loopStops: nat
    ghost var escapes: nat
    ghost var stopEscapes: nat

    ghost function View(): State
      reads this
    {
      State(state, shutdownEvent, callers, shutdownClaims, teardowns, stopClaims, stage1s, stage2s, loopStops,
            escapes, stopEscapes)
    }

    constructor ()
      ensures View() == INIT
    {
      state, shutdownEvent, callers := Initialize, false, map[];
      shutdownClaims, teardowns, stopClaims, stage1s, stage2s, loopStops := 0, 0, 0, 0, 0, 0;
      escapes, stopEscapes := 0, 0;
    }

    /** The field changes before the write that `set_state` awaits; without a change there
        is no await. */
    method SetState(newState: CoreState) returns (suspends: bool)
      modifies this`state
      ensures state == newState && suspends == (old(state) != newState)
    {
      if state == newState {
        return false;
      }
      state := newState;
      suspends := true;
    }

    method Shutdown(c: CallerId)
      requires Enabled(View(), CallShutdown(c))
      modifies this
      ensures View() == Next(old(View()), CallShutdown(c))
    {
      if state.Initialize? || state.Startup? || state.Setup? {
        return;
      }
      if state.Stopping? || state.Close? {
        return;
      }
      if state.Shutdown? {
        if !shutdownEvent {
          callers := callers[c := Waiting];
        }
        return;
      }
      var suspends := SetState(CoreState.Shutdown);
      shutdownClaims := shutdownClaims + 1;
      callers := callers[c := MarkingShutdown];
    }

    method ResumeShutdown(c: CallerId, ok: bool)
      requires InTry(View(), c)
      modifies this
      ensures View() == Next(old(View()), Step(c, ok))
    {
      if ok && callers[c].MarkingShutdown? {
        teardowns := teardowns + 1;
        callers := callers[c := TearingDown];
      } else if ok && callers[c].TearingDown? {
        callers := callers[c := StoppingPlugins];
      } else {
        callers := callers - {c};
        shutdownEvent := true;
      }
    }

    method ResumeWaiter(c: CallerId, ok: bool)
      requires c in callers && callers[c].Waiting? && Enabled(View(), Step(c, ok))
      modifies this
      ensures View() == Next(old(View()), Step(c, ok))
    {
      callers := callers - {c};
    }

    method Stop(c: CallerId)
      requires Enabled(View(), CallStop(c))
      modifies this
      ensures View() == Next(old(View()), CallStop(c))
    {
      if state.Running? || state.Shutdown? {
        callers := callers[c := StoringLastBoot];
      } else {
        EnterStopping(c);
      }
    }

    /** The state is looked at again after the await. */
    method EnterStopping(c: CallerId)
      modifies this
      ensures View() == BeginStop(old(View()), c)
    {
      if state.Stopping? || state.Close? {
        callers := callers - {c};
        return;
      }
      var suspends := SetState(Stopping);
      stopClaims := stopClaims + 1;
      callers := callers[c := MarkingStopping];
    }

    method ResumeStop(c: CallerId, ok: bool)
      requires c in callers && !InTry(View(), c) && !callers[c].Waiting?
      modifies this
      ensures View() == Next(old(View()), Step(c, ok))
    {
      if !ok {
        callers := callers - {c};
        return;
      }
      match callers[c] {
        case StoringLastBoot =>
          EnterStopping(c);
        case MarkingStopping =>
          stage1s := stage1s + 1;
          callers := callers[c := StoppingStage1];
        case StoppingStage1 =>
          stage2s := stage2s + 1;
          callers := callers[c := StoppingStage2];
        case StoppingStage2 =>
          var suspends := SetState(Close);
          if suspends {
            callers := callers[c := MarkingClose];
          } else {
            loopStops := loopStops + 1;
            callers := callers - {c};
          }
        case MarkingClose =>
          loopStops := loopStops + 1;
          callers := callers - {c};
      }
    }

    /** Somebody else sets the state. */
    method MoveState(to: CoreState)
      requires Enabled(View(), Other(to))
      modifies this
      ensures View() == Next(old(View()), Other(to))
    {
      if state.Shutdown? || state.Stopping? || state.Close? {
        escapes := escapes + 1;
      }
      if state.Stopping? || state.Close? {
        stopEscapes := stopEscapes + 1;
      }
      var suspends := SetState(to);
    }
  }
}
