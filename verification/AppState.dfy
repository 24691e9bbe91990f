/** The state of an app as derived from what its container does, and the watchdog that
    restarts it. */
module AppStateSpec {
  import opened Wrappers

  datatype ContainerState = Running | Healthy | Unhealthy | ContainerStopped | Failed | ContainerUnknown

  datatype AppState = Started | Startup | Stopped | Error | Unknown

  /** What the app can be told: a container event, with the health check and the attached image
      it has at that moment; a state found by asking for it, when the app is loaded or
      uninstalled; that an operation failed; that it is being started, or stopped. */
  datatype Item =
    | Seen(container: ContainerState, healthcheck: bool, attached: bool)
    | Found(container: ContainerState, healthcheck: bool, attached: bool)
    | OperationFailed
    | Starting
    | Stopping

  datatype State = State(
    container: Option<ContainerState>,
    state: AppState,
    startupEvent: bool,
    manualStop: bool,
    emitted: seq<AppState>)

  function Init(manualStop: bool): State {
    State(None, Unknown, false, manualStop, [])
  }

  /** The state that a container in this state stands for. */
  function Derive(container: Option<ContainerState>, healthcheck: bool, attached: bool, failed: bool): AppState {
    if failed then Error
    else
      match container
      case Some(Running) => if healthcheck then Startup else Started
      case Some(Healthy) => Started
      case Some(Unhealthy) => Started
      case Some(ContainerStopped) => Stopped
      case Some(Failed) => Error
      case _ => if attached then Stopped else Unknown
  }

  predicate SetsStartup(was: AppState, now: AppState) {
    was != now && (now == Started || was == Startup)
  }

  function Move(s: State, to: AppState): State {
    if to == s.state then s
    else
      s.(state := to,
         startupEvent := s.startupEvent || SetsStartup(s.state, to),
         emitted := s.emitted + [to])
  }

  function Next(s: State, item: Item): State {
    match item
    case Seen(c, h, a) =>
      Move(s.(container := Some(c), manualStop := s.manualStop && c != Running), Derive(Some(c), h, a, false))
    case Found(c, h, a) => Move(s.(container := Some(c)), Derive(Some(c), h, a, false))
    case OperationFailed => Move(s, Error)
    case Starting => s.(startupEvent := false)
    case Stopping => s.(manualStop := true)
  }

  function RunFrom(s: State, items: seq<Item>): State {
    if items == [] then s else Next(RunFrom(s, items[..|items| - 1]), items[|items| - 1])
  }

  function Run(manualStop: bool, items: seq<Item>): State {
    if items == [] then Init(manualStop) else Next(Run(manualStop, items[..|items| - 1]), items[|items| - 1])
  }

  lemma {:induction false} RunGoesOn(manualStop: bool, items: seq<Item>, more: seq<Item>)
    ensures Run(manualStop, items + more) == RunFrom(Run(manualStop, items), more)
  {
    if more == [] {
      assert items + more == items;
    } else {
      assert (items + more)[..|items + more| - 1] == items + more[..|more| - 1];
      RunGoesOn(manualStop, items, more[..|more| - 1]);
    }
  }

  lemma {:induction false} RunInParts(s: State, items: seq<Item>, more: seq<Item>)
    ensures RunFrom(s, items + more) == RunFrom(RunFrom(s, items), more)
  {
    if more == [] {
      assert items + more == items;
    } else {
      assert (items + more)[..|items + more| - 1] == items + more[..|more| - 1];
      RunInParts(s, items, more[..|more| - 1]);
    }
  }

  // ---------------------------------------------------------------- what the history says

  /** The state that one item stands for, if it says anything about it. */
  function Says(item: Item): Option<AppState> {
    match item
    case Seen(c, h, a) => Some(Derive(Some(c), h, a, false))
    case Found(c, h, a) => Some(Derive(Some(c), h, a, false))
    case OperationFailed => Some(Error)
    case Starting => None
    case Stopping => None
  }

  /** The states said one after the other, beginning with the initial one. */
  function Said(items: seq<Item>): (said: seq<AppState>)
    ensures said != []
  {
    if items == [] then [Unknown]
    else
      var last := Says(items[|items| - 1]);
      Said(items[..|items| - 1]) + if last.Some? then [last.value] else []
  }

  /** A sequence without what repeats the element before it. */
  function Changes(said: seq<AppState>): seq<AppState> {
    if |said| <= 1 then []
    else
      var n := |said| - 1;
      Changes(said[..n]) + if said[n] == said[n - 1] then [] else [said[n]]
  }

  /** In every history the cached state is the one that the last item with anything to say
      stands for, and the notifications are exactly the changes. */
  lemma {:induction false} StateFollowsTheHistory(manualStop: bool, items: seq<Item>)
    ensures var s := Run(manualStop, items); var said := Said(items);
            && s.state == said[|said| - 1]
            && s.emitted == Changes(said)
  {
    if items != [] {
      var n := |items| - 1;
      StateFollowsTheHistory(manualStop, items[..n]);
      var said, before := Said(items), Said(items[..n]);
      if Says(items[n]).Some? {
        assert said == before + [Says(items[n]).value];
        assert said[..|said| - 1] == before;
        assert said[|said| - 2] == before[|before| - 1];
      } else {
        assert said == before;
      }
    }
  }

  /** Which containers each state stands for. */
  ghost predicate StandsFor(c: Option<ContainerState>, healthcheck: bool, attached: bool, state: AppState) {
    match state
    case Error => c == Some(Failed)
    case Startup => c == Some(Running) && healthcheck
    case Started => c == Some(Healthy) || c == Some(Unhealthy) || (c == Some(Running) && !healthcheck)
    case Stopped => c == Some(ContainerStopped) || ((c == None || c == Some(ContainerUnknown)) && attached)
    case Unknown => (c == None || c == Some(ContainerUnknown)) && !attached
  }

  /** The item says something about the state: it is about the container, or a failure. */
  predicate Tells(item: Item) {
    item.Seen? || item.Found? || item.OperationFailed?
  }

  /** Is `k` the last item that tells something? */
  ghost predicate IsLastTold(items: seq<Item>, k: nat) {
    k < |items| && Tells(items[k]) && forall j :: k < j < |items| ==> !Tells(items[j])
  }

  /** The container state that the item reports, if it does. */
  ghost predicate Reports(item: Item, c: ContainerState) {
    (item.Seen? || item.Found?) && item.container == c
  }

  /** Which state the app is in, from the last item that tells something. */
  lemma {:induction false} StateIsThatOfTheLastItem(manualStop: bool, items: seq<Item>, k: nat)
    requires IsLastTold(items, k)
    ensures var state := Run(manualStop, items).state; var last := items[k];
            && (state == Error <==> last.OperationFailed? || Reports(last, Failed))
            && (state == Startup <==> Reports(last, Running) && last.healthcheck)
            && (state == Started <==>
                  Reports(last, Healthy) || Reports(last, Unhealthy) || (Reports(last, Running) && !last.healthcheck))
            && (state == Stopped <==>
                  Reports(last, ContainerStopped) || (Reports(last, ContainerUnknown) && last.attached))
            && (state == Unknown <==> Reports(last, ContainerUnknown) && !last.attached)
  {
    if k < |items| - 1 {
      assert !Tells(items[|items| - 1]);
      StateIsThatOfTheLastItem(manualStop, items[..|items| - 1], k);
    }
  }

  /** Before anything is told, the state is unknown. */
  lemma {:induction false} StateIsUnknownAtFirst(manualStop: bool, items: seq<Item>)
    requires forall j :: 0 <= j < |items| ==> !Tells(items[j])
    ensures Run(manualStop, items).state == Unknown
  {
    if items != [] {
      assert !Tells(items[|items| - 1]);
      StateIsUnknownAtFirst(manualStop, items[..|items| - 1]);
    }
  }

  ghost predicate Alternating(s: State) {
    && (forall i :: 0 < i < |s.emitted| ==> s.emitted[i - 1] != s.emitted[i])
    && (s.emitted != [] ==> s.emitted[0] != Unknown)
    && s.state == if s.emitted == [] then Unknown else s.emitted[|s.emitted| - 1]
  }

  lemma ItemKeepsAlternating(s: State, item: Item)
    requires Alternating(s)
    ensures Alternating(Next(s, item))
  {
    hide Derive;
  }

  /** Notifications never repeat a state, and end in the current one. */
  lemma {:induction false} NotificationsAlternate(manualStop: bool, items: seq<Item>)
    ensures Alternating(Run(manualStop, items))
  {
    if items != [] {
      NotificationsAlternate(manualStop, items[..|items| - 1]);
      ItemKeepsAlternating(Run(manualStop, items[..|items| - 1]), items[|items| - 1]);
    }
  }

  // ---------------------------------------------------------------- waiting for the startup

  /** Did item `i` move the state into Started or out of Startup? */
  ghost predicate StartsUp(manualStop: bool, items: seq<Item>, i: nat)
    requires i < |items|
  {
    var was, now := Run(manualStop, items[..i]).state, Run(manualStop, items[..i + 1]).state;
    was != now && (now == Started || was == Startup)
  }

  /** Item `i` made such a move, and no start came after it. */
  ghost predicate SetAt(manualStop: bool, items: seq<Item>, i: nat) {
    && i < |items|
    && StartsUp(manualStop, items, i)
    && forall j :: i < j < |items| ==> !items[j].Starting?
  }

  lemma SetBefore(manualStop: bool, items: seq<Item>, i: nat)
    requires i < |items| - 1
    ensures SetAt(manualStop, items, i)
            <==> SetAt(manualStop, items[..|items| - 1], i) && !items[|items| - 1].Starting?
  {
    var before := items[..|items| - 1];
    assert before[..i] == items[..i] && before[..i + 1] == items[..i + 1];
    assert forall j :: i < j < |before| ==> before[j] == items[j];
    hide Run;
  }

  ghost predicate SetSomewhere(manualStop: bool, items: seq<Item>) {
    exists i: nat :: SetAt(manualStop, items, i)
  }

  lemma StartingSetsNothing(manualStop: bool, items: seq<Item>)
    requires items != [] && items[|items| - 1].Starting?
    ensures !StartsUp(manualStop, items, |items| - 1)
  {
    assert items[..|items|] == items;
  }

  lemma SetByTheLast(manualStop: bool, items: seq<Item>)
    requires items != []
    ensures var n := |items| - 1;
            SetSomewhere(manualStop, items)
            <==> (!items[n].Starting? && SetSomewhere(manualStop, items[..n])) || StartsUp(manualStop, items, n)
  {
    hide Run, StartsUp;
    var n := |items| - 1;
    assert StartsUp(manualStop, items, n) ==> SetAt(manualStop, items, n);
    if i: nat :| SetAt(manualStop, items, i) {
      if i < n {
        SetBefore(manualStop, items, i);
      }
    }
    if i: nat :| SetAt(manualStop, items[..n], i) {
      SetBefore(manualStop, items, i);
    }
  }

  /** The event is set exactly if such a move followed the latest start. */
  lemma {:induction false} StartupEventExactly(manualStop: bool, items: seq<Item>)
    ensures Run(manualStop, items).startupEvent <==> SetSomewhere(manualStop, items)
  {
    if items != [] {
      var n := |items| - 1;
      StartupEventExactly(manualStop, items[..n]);
      SetByTheLast(manualStop, items);
      if items[n].Starting? {
        StartingSetsNothing(manualStop, items);
      }
      assert items[..n + 1] == items;
      hide SetSomewhere;
    }
  }

  /** An app started while it is still taken to be Started does not set the event as long as
      everything seen stands for Started: nobody saw it stop. */
  lemma {:induction false} UnseenStopMissesTheStartup(manualStop: bool, items: seq<Item>, more: seq<Item>)
    requires Run(manualStop, items).state == Started
    requires forall i :: 0 <= i < |more| ==> Says(more[i]) == Some(Started)
    ensures var s := Run(manualStop, items + [Starting] + more);
            s.state == Started && !s.startupEvent
  {
    var all := items + [Starting] + more;
    if more == [] {
      assert all[..|all| - 1] == items;
    } else {
      var n := |more| - 1;
      assert all[..|all| - 1] == items + [Starting] + more[..n];
      UnseenStopMissesTheStartup(manualStop, items, more[..n]);
    }
  }

  ghost predicate StartingUp(s: State) {
    s.state == Startup && !s.startupEvent
  }

  lemma SayingIs(s: State, item: Item)
    requires Says(item).Some?
    ensures Next(s, item).state == Says(item).value
    ensures Next(s, item).startupEvent == (s.startupEvent || SetsStartup(s.state, Says(item).value))
  {
  }

  /** A start is over only when the app is told something else than that its container runs
      with a health check: until then the event stays unset, and then it is set. */
  lemma {:induction false} HealthcheckHoldsTheStartup(manualStop: bool, items: seq<Item>, more: seq<Item>, next: Item)
    requires more != [] && forall i :: 0 <= i < |more| ==> Says(more[i]) == Some(Startup)
    requires Run(manualStop, items).state != Startup && Says(next).Some?
    ensures var s := Run(manualStop, items + [Starting] + more);
            StartingUp(s) && (Next(s, next).startupEvent <==> Says(next) != Some(Startup))
  {
    hide Run, Next, Says, Derive;
    var n := |more| - 1;
    var before := items + [Starting] + more[..n];
    assert before + [more[n]] == items + [Starting] + more;
    RunStep(manualStop, before, more[n]);
    if n > 0 {
      HealthcheckHoldsTheStartup(manualStop, items, more[..n], next);
    } else {
      assert before == items + [Starting];
      RunStep(manualStop, items, Starting);
      StartingIs(Run(manualStop, items));
    }
    SayingIs(Run(manualStop, before), more[n]);
    SayingIs(Run(manualStop, items + [Starting] + more), next);
  }

  lemma RunStep(manualStop: bool, items: seq<Item>, item: Item)
    ensures Run(manualStop, items + [item]) == Next(Run(manualStop, items), item)
  {
    assert (items + [item])[..|items|] == items;
  }

  lemma StartingIs(s: State)
    ensures Next(s, Starting) == s.(startupEvent := false)
  {
  }

  /** Does the watchdog step in for this container event? */
  predicate Watches(s: State, enabled: bool, c: ContainerState) {
    enabled && !s.manualStop && (c == Failed || c == ContainerStopped || c == Unhealthy)
  }

  /** After a stop, by anybody, the watchdog keeps out until an event says that the container
      runs; finding it so is not enough. */
  lemma {:induction false} ManualStopHolds(manualStop: bool, items: seq<Item>, more: seq<Item>)
    requires forall i :: 0 <= i < |more| ==> !(more[i].Seen? && more[i].container == Running)
    ensures var s := Run(manualStop, items + [Stopping] + more);
            s.manualStop && forall enabled, c :: !Watches(s, enabled, c)
  {
    var all := items + [Stopping] + more;
    if more == [] {
      assert all[..|all| - 1] == items;
    } else {
      var n := |more| - 1;
      assert all[..|all| - 1] == items + [Stopping] + more[..n];
      ManualStopHolds(manualStop, items, more[..n]);
    }
  }

  /** Once an event has said so, only another stop keeps the watchdog out. */
  lemma {:induction false} RunningIsWatched(manualStop: bool, items: seq<Item>, up: Item, more: seq<Item>)
    requires up.Seen? && up.container == Running && Stopping !in more
    ensures !Run(manualStop, items + [up] + more).manualStop
  {
    var all := items + [up] + more;
    if more == [] {
      assert all[..|all| - 1] == items;
    } else {
      var n := |more| - 1;
      assert all[..|all| - 1] == items + [up] + more[..n];
      RunningIsWatched(manualStop, items, up, more[..n]);
    }
  }

  // ---------------------------------------------------------------- the watchdog

  const WATCHDOG_RETRY_SECONDS := 10
  const WATCHDOG_MAX_ATTEMPTS := 5

  /** How a restart ends: it may be refused because a port is taken. */
  datatype Outcome = Restarted | PortConflict | RestartFailed

  /** How `start` goes: the container runs already; it ends before the container is asked to
      start; or the container cannot have its port, does not start, or starts. */
  datatype StartRun = RunsAlready | EndsEarly | PortTaken | DoesNotStart | Starts

  function OutcomeOf(run: StartRun): Outcome {
    match run
    case RunsAlready => Restarted
    case EndsEarly => RestartFailed
    case PortTaken => PortConflict
    case DoesNotStart => RestartFailed
    case Starts => Restarted
  }

  /** One turn of the loop: what the watchdog finds, how its stop and its start go, and what
      the app is told meanwhile, before the start and after it. */
  datatype Turn = Turn(same: bool, inProgress: bool, stopFails: bool, run: StartRun,
                       before: seq<Item>, after: seq<Item>)

  datatype Action = RemoveContainer | Start | Restart | Sleep(seconds: nat)

  datatype Watch = Watch(attempts: nat, ended: bool, actions: seq<Action>)

  function PowerOfTwo(n: nat): nat {
    if n == 0 then 1 else 2 * PowerOfTwo(n - 1)
  }

  function Delay(attempts: nat): nat {
    WATCHDOG_RETRY_SECONDS * PowerOfTwo(if attempts == 0 then 0 else attempts - 1)
  }

  function Attempt(failed: bool, attempts: nat): seq<Action> {
    if !failed then [Restart] else if attempts == 0 then [RemoveContainer, Start] else [Start]
  }

  /** One turn of the loop, for a container that failed or is otherwise in trouble. */
  function TakeTurn(failed: bool, w: Watch, t: Turn): Watch {
    if w.ended then w
    else if !t.same then w.(ended := true)
    else if t.inProgress then w.(actions := w.actions + [Sleep(Delay(w.attempts))])
    else
      var tried := w.(actions := w.actions + Attempt(failed, w.attempts));
      if !OutcomeOf(t.run).RestartFailed? then tried.(ended := true)
      else
        var again := tried.(attempts := w.attempts + 1);
        if again.attempts >= WATCHDOG_MAX_ATTEMPTS then again.(ended := true)
        else again.(actions := again.actions + [Sleep(Delay(again.attempts))])
  }

  /** The watchdog after the given turns. */
  function Watched(failed: bool, turns: seq<Turn>): Watch {
    if turns == [] then Watch(0, false, [])
    else TakeTurn(failed, Watched(failed, turns[..|turns| - 1]), turns[|turns| - 1])
  }

  function Tries(actions: seq<Action>): nat {
    if actions == [] then 0
    else
      Tries(actions[..|actions| - 1])
      + if actions[|actions| - 1].Start? || actions[|actions| - 1].Restart? then 1 else 0
  }

  function Slept(actions: seq<Action>): nat {
    if actions == [] then 0
    else
      Slept(actions[..|actions| - 1])
      + if actions[|actions| - 1].Sleep? then actions[|actions| - 1].seconds else 0
  }

  function Removals(actions: seq<Action>): nat {
    if actions == [] then 0
    else Removals(actions[..|actions| - 1]) + if actions[|actions| - 1].RemoveContainer? then 1 else 0
  }

  lemma OneMore(actions: seq<Action>, a: Action)
    ensures Tries(actions + [a]) == Tries(actions) + if a.Start? || a.Restart? then 1 else 0
    ensures Slept(actions + [a]) == Slept(actions) + if a.Sleep? then a.seconds else 0
    ensures Removals(actions + [a]) == Removals(actions) + if a.RemoveContainer? then 1 else 0
  {
    assert (actions + [a])[..|actions|] == actions;
  }

  /** Turns in which another operation was in progress cost their own delay. */
  function SleptWaiting(failed: bool, turns: seq<Turn>): nat {
    if turns == [] then 0
    else
      var n := |turns| - 1;
      SleptWaiting(failed, turns[..n]) + Waits(Watched(failed, turns[..n]), turns[n])
  }

  /** The sum of the first `n` delays. */
  function Backoff(n: nat): int {
    WATCHDOG_RETRY_SECONDS * (PowerOfTwo(n) - 1)
  }

  /** `waited` is what was spent while other operations were in progress. */
  ghost predicate Accounted(failed: bool, waited: nat, w: Watch) {
    && w.attempts <= Tries(w.actions) <= w.attempts + 1
    && Tries(w.actions) <= WATCHDOG_MAX_ATTEMPTS
    && (!w.ended ==> w.attempts < WATCHDOG_MAX_ATTEMPTS && Tries(w.actions) == w.attempts)
    && Slept(w.actions)
       == waited + Backoff(if w.attempts == WATCHDOG_MAX_ATTEMPTS then WATCHDOG_MAX_ATTEMPTS - 1 else w.attempts)
    && Removals(w.actions) == if failed && Tries(w.actions) > 0 then 1 else 0
  }

  lemma AttemptAdds(actions: seq<Action>, failed: bool, attempts: nat)
    ensures var more := actions + Attempt(failed, attempts);
            && Tries(more) == Tries(actions) + 1
            && Slept(more) == Slept(actions)
            && Removals(more) == Removals(actions) + if failed && attempts == 0 then 1 else 0
  {
    if failed && attempts == 0 {
      OneMore(actions, RemoveContainer);
      OneMore(actions + [RemoveContainer], Start);
      assert actions + [RemoveContainer, Start] == actions + [RemoveContainer] + [Start];
    } else {
      OneMore(actions, if failed then Start else Restart);
    }
  }

  lemma BackoffGrows(n: nat)
    ensures Backoff(n + 1) == Backoff(n) + Delay(n + 1)
  {
  }

  function Waits(w: Watch, t: Turn): nat {
    if !w.ended && t.same && t.inProgress then Delay(w.attempts) else 0
  }

  lemma WaitingIsAccounted(failed: bool, waited: nat, w: Watch, t: Turn)
    requires Accounted(failed, waited, w) && !IsTry(w, t)
    ensures Accounted(failed, waited + Waits(w, t), TakeTurn(failed, w, t))
  {
    OneMore(w.actions, Sleep(Delay(w.attempts)));
    hide Tries, Slept, Removals, Attempt, Backoff, Delay;
  }

  predicate IsTry(w: Watch, t: Turn) {
    !w.ended && t.same && !t.inProgress
  }

  lemma TryActions(failed: bool, w: Watch, t: Turn)
    requires IsTry(w, t)
    ensures var u := TakeTurn(failed, w, t); var tried := w.actions + Attempt(failed, w.attempts);
            && u.attempts == w.attempts + (if OutcomeOf(t.run).RestartFailed? then 1 else 0)
            && (u.ended <==> u.attempts == w.attempts || u.attempts >= WATCHDOG_MAX_ATTEMPTS)
            && u.actions == if u.ended then tried else tried + [Sleep(Delay(u.attempts))]
  {
    hide Attempt, Delay, OutcomeOf;
  }

  lemma TryCounts(failed: bool, w: Watch, t: Turn)
    requires IsTry(w, t)
    ensures var u := TakeTurn(failed, w, t);
            && Tries(u.actions) == Tries(w.actions) + 1
            && Slept(u.actions) == Slept(w.actions) + (if u.ended then 0 else Delay(u.attempts))
            && Removals(u.actions) == Removals(w.actions) + (if failed && w.attempts == 0 then 1 else 0)
  {
    hide *;
    TryActions(failed, w, t);
    AttemptAdds(w.actions, failed, w.attempts);
    OneMore(w.actions + Attempt(failed, w.attempts), Sleep(Delay(TakeTurn(failed, w, t).attempts)));
  }

  lemma TryIsAccounted(failed: bool, waited: nat, w: Watch, t: Turn)
    requires Accounted(failed, waited, w) && IsTry(w, t)
    ensures Accounted(failed, waited + Waits(w, t), TakeTurn(failed, w, t))
  {
    TryActions(failed, w, t);
    TryCounts(failed, w, t);
    BackoffGrows(w.attempts);
    hide TakeTurn, Tries, Slept, Removals, Attempt, Backoff, Delay, OutcomeOf;
  }

  /** In every run the watchdog tries at most five times; the failed container is removed
      once, before the first try; and it sleeps 10 * (2^n - 1) seconds for the `n` failures it
      tries again after, at most 150, besides what it spends while other operations are in
      progress. */
  lemma {:induction false} WatchdogIsAccounted(failed: bool, turns: seq<Turn>)
    ensures Accounted(failed, SleptWaiting(failed, turns), Watched(failed, turns))
    ensures var actions := Watched(failed, turns).actions;
            Tries(actions) <= 5 && Slept(actions) <= SleptWaiting(failed, turns) + 150
  {
    if turns != [] {
      var n := |turns| - 1;
      WatchdogIsAccounted(failed, turns[..n]);
      var waited, w := SleptWaiting(failed, turns[..n]), Watched(failed, turns[..n]);
      if !IsTry(w, turns[n]) {
        WaitingIsAccounted(failed, waited, w, turns[n]);
      } else {
        TryIsAccounted(failed, waited, w, turns[n]);
      }
    }
    AccountedMeans(failed, SleptWaiting(failed, turns), Watched(failed, turns));
  }

  lemma AccountedMeans(failed: bool, waited: nat, w: Watch)
    requires Accounted(failed, waited, w)
    ensures Tries(w.actions) <= 5 && Slept(w.actions) <= waited + 150
  {
    hide Tries, Slept, Removals, Backoff;
    BackoffIs(if w.attempts == 5 then 4 else w.attempts);
  }

  /** What it has slept after each number of failures, with nothing else in progress. */
  lemma WatchdogSleeps(failed: bool, turns: seq<Turn>)
    requires forall t :: t in turns ==> !t.inProgress
    ensures var w := Watched(failed, turns);
            w.attempts <= 5 && Slept(w.actions) == [0, 10, 30, 70, 150, 150][w.attempts]
  {
    assert forall i :: 0 <= i < |turns| ==> turns[i] in turns;
    WatchdogIsAccounted(failed, turns);
    WatchdogEnds(failed, turns);
    BackoffIs(if Watched(failed, turns).attempts == 5 then 4 else Watched(failed, turns).attempts);
    hide Watched, Slept, SleptWaiting, Tries, Removals, Backoff;
  }

  lemma BackoffIs(n: nat)
    requires n <= 4
    ensures Backoff(n) == [0, 10, 30, 70, 150][n]
  {
    assert PowerOfTwo(0) == 1 && PowerOfTwo(1) == 2 && PowerOfTwo(2) == 4 && PowerOfTwo(3) == 8 && PowerOfTwo(4) == 16;
  }

  /** A failed container is removed and started, one in other trouble is restarted. */
  predicate Fits(failed: bool, a: Action) {
    match a
    case RemoveContainer => failed
    case Start => failed
    case Restart => !failed
    case Sleep(_) => true
  }

  lemma {:induction false} ActionsFitTheProblem(failed: bool, turns: seq<Turn>)
    ensures forall a :: a in Watched(failed, turns).actions ==> Fits(failed, a)
  {
    if turns != [] {
      ActionsFitTheProblem(failed, turns[..|turns| - 1]);
    }
  }

  /** With nothing else in progress the watchdog gives up, restarts or finds another state
      within five turns. */
  lemma {:induction false} WatchdogEnds(failed: bool, turns: seq<Turn>)
    requires forall i :: 0 <= i < |turns| ==> !turns[i].inProgress
    ensures SleptWaiting(failed, turns) == 0
    ensures Watched(failed, turns).ended || Watched(failed, turns).attempts == |turns|
    ensures |turns| >= 5 ==> Watched(failed, turns).ended
  {
    if turns != [] {
      WatchdogEnds(failed, turns[..|turns| - 1]);
    }
    WatchdogIsAccounted(failed, turns);
  }

  /** The watchdog finds the container in another state, or starts it, or finds it running, or
      cannot have its port. */
  predicate EndsIt(t: Turn) {
    !t.same || (!t.inProgress && t.run in {RunsAlready, Starts, PortTaken})
  }

  predicate FailsToStart(t: Turn) {
    t.same && !t.inProgress && t.run in {EndsEarly, DoesNotStart}
  }

  function Failures(turns: seq<Turn>): nat {
    if turns == [] then 0 else Failures(turns[..|turns| - 1]) + if FailsToStart(turns[|turns| - 1]) then 1 else 0
  }

  /** It ends exactly with the first such turn, or with the fifth failure. */
  lemma {:induction false} WatchdogEndsExactly(failed: bool, turns: seq<Turn>)
    ensures Watched(failed, turns).ended <==> (exists t :: t in turns && EndsIt(t)) || Failures(turns) >= 5
    ensures !Watched(failed, turns).ended ==> Watched(failed, turns).attempts == Failures(turns)
  {
    if turns != [] {
      var n := |turns| - 1;
      WatchdogEndsExactly(failed, turns[..n]);
      assert turns == turns[..n] + [turns[n]];
      TurnEndsExactly(failed, Watched(failed, turns[..n]), turns[n]);
      WatchdogIsAccounted(failed, turns[..n]);
      hide TakeTurn, EndsIt, FailsToStart;
    }
  }

  lemma TurnEndsExactly(failed: bool, w: Watch, t: Turn)
    requires !w.ended ==> w.attempts < 5
    ensures var u := TakeTurn(failed, w, t);
            && (u.ended <==> w.ended || EndsIt(t) || (FailsToStart(t) && w.attempts == 4))
            && (!u.ended ==> u.attempts == w.attempts + if FailsToStart(t) then 1 else 0)
  {
  }

  // ---------------------------------------------------------------- what the watchdog does to the app

  function StartItems(run: StartRun): seq<Item> {
    match run
    case RunsAlready => []
    case EndsEarly => []
    case PortTaken => [Starting]
    case DoesNotStart => [Starting, OperationFailed]
    case Starts => [Starting]
  }

  /** A restart stops the app by the same operation as anybody else. */
  function StopItems(failed: bool, stopFails: bool): seq<Item> {
    if failed then [] else if stopFails then [Stopping, OperationFailed] else [Stopping]
  }

  /** What the app is told in one turn. */
  function TurnItems(failed: bool, w: Watch, t: Turn): seq<Item> {
    if w.ended || !t.same then []
    else if t.inProgress then t.after
    else StopItems(failed, t.stopFails) + t.before + StartItems(t.run) + t.after
  }

  function WatchItems(failed: bool, turns: seq<Turn>): seq<Item> {
    if turns == [] then []
    else
      var n := |turns| - 1;
      WatchItems(failed, turns[..n]) + TurnItems(failed, Watched(failed, turns[..n]), turns[n])
  }

  /** No container event says that the container runs, and nobody else stops the app. */
  ghost predicate Quiet(items: seq<Item>) {
    forall x :: x in items ==> x != Stopping && !(x.Seen? && x.container == Running)
  }

  lemma {:induction false} QuietLeavesManualStop(s: State, items: seq<Item>)
    requires Quiet(items)
    ensures RunFrom(s, items).manualStop == s.manualStop
  {
    if items != [] {
      var n := |items| - 1;
      assert items[n] in items && forall x :: x in items[..n] ==> x in items;
      QuietLeavesManualStop(s, items[..n]);
    }
  }

  lemma TurnStops(s: State, failed: bool, w: Watch, t: Turn)
    requires Quiet(t.before) && Quiet(t.after)
    ensures RunFrom(s, TurnItems(failed, w, t)).manualStop == (s.manualStop || (!failed && IsTry(w, t)))
  {
    if IsTry(w, t) {
      var a, b, c := StopItems(failed, t.stopFails), t.before, StartItems(t.run);
      RunInParts(s, a, b);
      RunInParts(s, a + b, c);
      RunInParts(s, a + b + c, t.after);
      QuietLeavesManualStop(RunFrom(s, a), b);
      QuietLeavesManualStop(RunFrom(s, a + b), c);
      QuietLeavesManualStop(RunFrom(s, a + b + c), t.after);
    } else {
      QuietLeavesManualStop(s, TurnItems(failed, w, t));
    }
  }

  lemma TurnTries(failed: bool, w: Watch, t: Turn)
    ensures Tries(TakeTurn(failed, w, t).actions) == Tries(w.actions) + if IsTry(w, t) then 1 else 0
  {
    if IsTry(w, t) {
      TryCounts(failed, w, t);
    } else {
      OneMore(w.actions, Sleep(Delay(w.attempts)));
    }
    hide Tries, Attempt, Delay;
  }

  /** The watchdog keeps itself out: once it has tried to restart an app that stopped or is
      unhealthy, the app counts as stopped on purpose until an event says that the container
      runs.  Restarting one that failed does not do that. */
  lemma {:induction false} WatchdogKeepsItselfOut(s: State, failed: bool, turns: seq<Turn>)
    requires forall t :: t in turns ==> Quiet(t.before) && Quiet(t.after)
    ensures var r := RunFrom(s, WatchItems(failed, turns));
            && (r.manualStop <==> s.manualStop || (!failed && Tries(Watched(failed, turns).actions) > 0))
            && (r.manualStop <==> forall enabled, c :: !Watches(r, enabled, c))
  {
    if turns == [] {
      assert Watches(s, true, Failed) <==> !s.manualStop;
    } else {
      var n := |turns| - 1;
      assert turns[n] in turns && forall t :: t in turns[..n] ==> t in turns;
      WatchdogKeepsItselfOut(s, failed, turns[..n]);
      var before, w := RunFrom(s, WatchItems(failed, turns[..n])), Watched(failed, turns[..n]);
      RunInParts(s, WatchItems(failed, turns[..n]), TurnItems(failed, w, turns[n]));
      TurnStops(before, failed, w, turns[n]);
      TurnTries(failed, w, turns[n]);
      var r := RunFrom(s, WatchItems(failed, turns));
      assert Watches(r, true, Failed) <==> !r.manualStop;
      hide RunFrom, TurnItems, Quiet, TakeTurn, Tries;
    }
  }
}

module AppState {
  import opened Wrappers
  import opened AppStateSpec

  lemma LaterTurnsAreIgnored(failed: bool, turns: seq<Turn>, n: nat)
    requires n <= |turns| && Watched(failed, turns[..n]).ended
    ensures Watched(failed, turns) == Watched(failed, turns[..n])
    ensures WatchItems(failed, turns) == WatchItems(failed, turns[..n])
    decreases |turns|
  {
    if n == |turns| {
      assert turns[..n] == turns;
    } else {
      assert turns[..|turns| - 1][..n] == turns[..n];
      LaterTurnsAreIgnored(failed, turns[..|turns| - 1], n);
    }
  }

  lemma NextTurn(failed: bool, turns: seq<Turn>, i: nat)
    requires i < |turns|
    ensures Watched(failed, turns[..i + 1]) == TakeTurn(failed, Watched(failed, turns[..i]), turns[i])
    ensures WatchItems(failed, turns[..i + 1])
            == WatchItems(failed, turns[..i]) + TurnItems(failed, Watched(failed, turns[..i]), turns[i])
  {
    assert turns[..i + 1][..i] == turns[..i];
  }

  class App {
    var containerState: Option<ContainerState>
    var state: AppStateSpec.AppState
    var startupEvent: bool
    var manualStop: bool
    var emitted: seq<AppStateSpec.AppState>

    ghost function View(): State
      reads this
    {
      State(containerState, state, startupEvent, manualStop, emitted)
    }

    constructor (manualStop: bool)
      ensures View() == Init(manualStop)
    {
      containerState, state, startupEvent, emitted := None, Unknown, false, [];
      this.manualStop := manualStop;
    }

    /** `observed` is `None` when the container was not looked at. */
    method UpdateState(observed: Option<ContainerState>, operationError: bool, healthcheck: bool, attached: bool)
      modifies this
      ensures var seen := if observed.Some? then observed else old(containerState);
              View() == Move(old(View()).(container := seen), Derive(seen, healthcheck, attached, operationError))
      ensures if operationError then state == Error else StandsFor(containerState, healthcheck, attached, state)
    {
      if observed.Some? {
        containerState := observed;
      }
      var newState := Derive(containerState, healthcheck, attached, operationError);
      if newState == state {
        return;
      }
      var oldState := state;
      state := newState;
      if newState == Started || oldState == Startup {
        startupEvent := true;
      }
      emitted := emitted + [newState];
    }

    /** A container event of this app. */
    method ContainerStateChanged(observed: ContainerState, healthcheck: bool, attached: bool)
      modifies this
      ensures View() == Next(old(View()), Seen(observed, healthcheck, attached))
    {
      if observed == Running {
        manualStop := false;
      }
      UpdateState(Some(observed), false, healthcheck, attached);
    }

    /** The container state that `load` and `uninstall` find or know. */
    method SettleState(observed: ContainerState, healthcheck: bool, attached: bool)
      modifies this
      ensures View() == Next(old(View()), Found(observed, healthcheck, attached))
    {
      UpdateState(Some(observed), false, healthcheck, attached);
    }

    method FailOperation(healthcheck: bool, attached: bool)
      modifies this
      ensures View() == Next(old(View()), OperationFailed) && state == Error
    {
      UpdateState(None, true, healthcheck, attached);
    }

    /** `start` in one of the ways it can go. */
    method Start(run: StartRun, healthcheck: bool, attached: bool) returns (outcome: Outcome)
      modifies this
      ensures View() == RunFrom(old(View()), StartItems(run)) && outcome == OutcomeOf(run)
      ensures outcome == match run
                         case RunsAlready => Restarted
                         case Starts => Restarted
                         case PortTaken => PortConflict
                         case EndsEarly => RestartFailed
                         case DoesNotStart => RestartFailed
      ensures run in {RunsAlready, EndsEarly} ==> View() == old(View())
      ensures run in {PortTaken, Starts} ==> !startupEvent && state == old(state) && emitted == old(emitted)
      ensures run == DoesNotStart ==> state == Error
    {
      hide RunFrom, Next, Move;
      ghost var before := View();
      OneItem(before, Starting);
      TwoItems(before, Starting, OperationFailed);
      StartingIs(before);
      if run.RunsAlready? {
        return Restarted;
      }
      if run.EndsEarly? {
        return RestartFailed;
      }
      startupEvent := false;
      if run.PortTaken? {
        return PortConflict;
      }
      if run.DoesNotStart? {
        FailOperation(healthcheck, attached);
        return RestartFailed;
      }
      return Restarted;
    }

    /** `stop`, which remembers that the app was stopped on purpose. */
    method Stop(fails: bool, healthcheck: bool, attached: bool)
      modifies this
      ensures View() == RunFrom(old(View()), StopItems(false, fails))
      ensures manualStop && state == if fails then Error else old(state)
    {
      ghost var before := View();
      OneItem(before, Stopping);
      manualStop := true;
      if fails {
        FailOperation(healthcheck, attached);
        TwoItems(before, Stopping, OperationFailed);
      }
    }

    /** What the app is told by others while an operation awaits. */
    method Hear(items: seq<Item>)
      modifies this
      ensures View() == RunFrom(old(View()), items)
    {
      for i := 0 to |items|
        invariant View() == RunFrom(old(View()), items[..i])
      {
        assert items[..i + 1][..i] == items[..i];
        match items[i] {
          case Seen(c, h, a) => ContainerStateChanged(c, h, a);
          case Found(c, h, a) => SettleState(c, h, a);
          case OperationFailed => FailOperation(false, false);
          case Starting => startupEvent := false;
          case Stopping => manualStop := true;
        }
      }
      assert items[..|items|] == items;
    }

    /** What the watchdog does about a container event of this app. */
    method WatchdogContainer(enabled: bool, observed: ContainerState, turns: seq<Turn>) returns (w: Watch)
      modifies this
      ensures w == if old(Watches(View(), enabled, observed)) then Watched(observed == Failed, turns) else Watch(0, true, [])
      ensures !enabled || old(manualStop) || observed !in {Failed, ContainerStopped, Unhealthy} ==>
                w.actions == [] && View() == old(View())
      ensures enabled && !old(manualStop) && observed in {Failed, ContainerStopped, Unhealthy} ==>
                w == Watched(observed == Failed, turns)
      ensures View() == if old(Watches(View(), enabled, observed))
                        then RunFrom(old(View()), WatchItems(observed == Failed, turns)) else old(View())
    {
      if !enabled || manualStop {
        return Watch(0, true, []);
      }
      if observed in [Failed, ContainerStopped, Unhealthy] {
        w := RestartAfterProblem(observed, turns);
      } else {
        w := Watch(0, true, []);
      }
    }

    /** Restarts the app until it works or five tries have failed.  `turns` is what happens to
        it; the run ends early when they are used up. */
    method RestartAfterProblem(problem: ContainerState, turns: seq<Turn>) returns (w: Watch)
      modifies this
      ensures w == Watched(problem == Failed, turns)
      ensures View() == RunFrom(old(View()), WatchItems(problem == Failed, turns))
    {
      hide RunFrom, WatchItems, Watched;
      var failed := problem == Failed;
      ghost var s := View();
      var attempts: nat := 0;
      var actions: seq<Action> := [];
      OneItem(s, Starting);
      assert turns[..0] == [];
      for i := 0 to |turns|
        invariant Watched(failed, turns[..i]) == Watch(attempts, false, actions) && attempts < WATCHDOG_MAX_ATTEMPTS
        invariant View() == RunFrom(s, WatchItems(failed, turns[..i]))
      {
        NextTurn(failed, turns, i);
        RunInParts(s, WatchItems(failed, turns[..i]), TurnItems(failed, Watch(attempts, false, actions), turns[i]));
        var ended;
        attempts, actions, ended := OneTurn(failed, attempts, actions, turns[i]);
        if ended {
          LaterTurnsAreIgnored(failed, turns, i + 1);
          return Watch(attempts, true, actions);
        }
      }
      assert turns[..|turns|] == turns;
      w := Watch(attempts, false, actions);
    }

    /** The body of the loop. */
    method OneTurn(failed: bool, attempts: nat, actions: seq<Action>, t: Turn)
      returns (attempts': nat, actions': seq<Action>, ended: bool)
      requires attempts < WATCHDOG_MAX_ATTEMPTS
      modifies this
      ensures Watch(attempts', ended, actions') == TakeTurn(failed, Watch(attempts, false, actions), t)
      ensures !ended ==> attempts' < WATCHDOG_MAX_ATTEMPTS
      ensures View() == RunFrom(old(View()), TurnItems(failed, Watch(attempts, false, actions), t))
    {
      hide RunFrom;
      attempts', actions', ended := attempts, actions, false;
      ghost var s := View();
      if !t.same {
        OneItem(s, Starting);
        ended := true;
        return;
      }
      if !t.inProgress {
        var outcome;
        actions', outcome := Attempt(failed, attempts, actions, t);
        match outcome {
          case PortConflict => ended := true;
          case RestartFailed => attempts' := attempts' + 1;
          case Restarted => ended := true;
        }
        ended := ended || attempts' >= WATCHDOG_MAX_ATTEMPTS;
        ghost var heard := StopItems(failed, t.stopFails) + t.before + StartItems(t.run);
        RunInParts(s, heard, t.after);
      }
      Hear(t.after);
      if !ended {
        var delay := WATCHDOG_RETRY_SECONDS * PowerOfTwo(if attempts' == 0 then 0 else attempts' - 1);
        actions' := actions' + [Sleep(delay)];
      }
    }

    /** A failed container is removed before the first attempt to start it again; one in other
        trouble is stopped and started. */
    method Attempt(failed: bool, attempts: nat, actions: seq<Action>, t: Turn)
      returns (done: seq<Action>, outcome: Outcome)
      modifies this
      ensures done == actions + AppStateSpec.Attempt(failed, attempts) && outcome == OutcomeOf(t.run)
      ensures View() == RunFrom(old(View()), StopItems(failed, t.stopFails) + t.before + StartItems(t.run))
    {
      hide RunFrom, StartItems;
      ghost var s := View();
      ghost var stopped := StopItems(failed, t.stopFails);
      OneItem(s, Starting);
      RunInParts(s, stopped, t.before);
      RunInParts(s, stopped + t.before, StartItems(t.run));
      done := actions;
      if failed {
        if attempts == 0 {
          done := done + [RemoveContainer];
        }
        done := done + [AppStateSpec.Start];
      } else {
        done := done + [Restart];
        Stop(t.stopFails, false, false);
      }
      Hear(t.before);
      outcome := Start(t.run, false, false);
    }
  }

  lemma OneItem(s: State, item: Item)
    ensures RunFrom(s, [item]) == Next(s, item) && RunFrom(s, []) == s
    ensures forall failed :: WatchItems(failed, []) == [] && Watched(failed, []) == Watch(0, false, [])
  {
    assert [item][..0] == [];
  }

  lemma TwoItems(s: State, a: Item, b: Item)
    ensures RunFrom(s, [a, b]) == Next(Next(s, a), b)
  {
    hide Next;
    OneItem(s, a);
    OneItem(RunFrom(s, [a]), b);
    RunInParts(s, [a], [b]);
    assert [a] + [b] == [a, b];
  }
}
