/** Ingress sessions: created for a quarter of an hour, prolonged by every validation, and
    dropped by a cleanup that runs now and then.

    `Next` is what an operation does to the two dictionaries; the methods of class
    `Ingress` are the code and are proved to do exactly that. */
module IngressSpec {
  import opened Wrappers

  type Token = nat
  type Data = seq<string>   // empty: an empty dict, which counts as none

  /** A stored time stamp; `Malformed` overflows when it is read as a time. */
  datatype Stamp = At(seconds: real) | Malformed

  datatype State = State(sessions: map<Token, Stamp>, data: map<Token, Data>)

  datatype Event =
    | Create(token: Token, data: Option<Data>, now: real)
    | Validate(token: Token, now: real)
    | Cleanup(now: real)

  const QUARTER: real := 900.0

  predicate Outlives(stamp: Stamp, now: real) {
    stamp.At? && now <= stamp.seconds
  }

  function SessionData(s: State, t: Token): Option<Data> {
    if t in s.data && s.data[t] != [] then Some(s.data[t]) else None
  }

  function Clean(s: State, now: real): State {
    State(map t | t in s.sessions && Outlives(s.sessions[t], now) :: s.sessions[t],
          map t | t in s.sessions && Outlives(s.sessions[t], now) && SessionData(s, t).Some? :: s.data[t])
  }

  predicate Accepts(s: State, t: Token, now: real) {
    t in s.sessions && (s.sessions[t].Malformed? || now <= s.sessions[t].seconds)
  }

  function Prolonged(stamp: Stamp, now: real): Stamp {
    At((if stamp.Malformed? then now else stamp.seconds) + QUARTER)
  }

  function Next(s: State, e: Event): State {
    match e
    case Create(t, data, now) =>
      State(s.sessions[t := At(now + QUARTER)], if data.Some? then s.data[t := data.value] else s.data)
    case Validate(t, now) =>
      if Accepts(s, t, now) then s.(sessions := s.sessions[t := Prolonged(s.sessions[t], now)]) else s
    case Cleanup(now) => Clean(s, now)
  }

  function Run(s: State, es: seq<Event>): State {
    if es == [] then s else Next(Run(s, es[..|es| - 1]), es[|es| - 1])
  }

  /** What is seen from outside: every answer, and after a good one the session's data. */
  datatype Output = Refused | Accepted(data: Option<Data>)

  function Answer(s: State, e: Event): Output
    requires e.Validate?
  {
    if Accepts(s, e.token, e.now) then Accepted(SessionData(s, e.token)) else Refused
  }

  function Outputs(s: State, es: seq<Event>): seq<Output> {
    if es == [] then []
    else
      var n := |es| - 1;
      Outputs(s, es[..n]) + if es[n].Validate? then [Answer(Run(s, es[..n]), es[n])] else []
  }

  ghost predicate MonotoneClock(es: seq<Event>) {
    forall i, j :: 0 <= i < j < |es| ==> es[i].now <= es[j].now
  }

  /** A new token is one that nobody has seen before. */
  ghost predicate FreshTokens(s: State, es: seq<Event>) {
    && (forall i :: 0 <= i < |es| && es[i].Create? ==> es[i].token !in s.sessions && es[i].token !in s.data)
    && (forall i, j :: 0 <= i < j < |es| && es[j].Create? ==> es[i].Cleanup? || es[i].token != es[j].token)
  }

  ghost predicate WellFormed(s: State) {
    forall t :: t in s.sessions ==> s.sessions[t].At?
  }

  ghost predicate Proper(s: State, es: seq<Event>) {
    MonotoneClock(es) && FreshTokens(s, es)
  }

  lemma ProperPrefix(s: State, es: seq<Event>)
    requires Proper(s, es) && es != []
    ensures Proper(s, es[..|es| - 1])
  {
  }

  // ---------------------------------------------------------------- cleaning up changes nothing

  function WithoutCleanups(es: seq<Event>): seq<Event> {
    if es == [] then []
    else
      var n := |es| - 1;
      WithoutCleanups(es[..n]) + if es[n].Cleanup? then [] else [es[n]]
  }

  /** `b` is `a` without some sessions that are over and without some orphaned data. */
  ghost predicate Tidied(a: State, b: State, now: real) {
    && (forall t :: t in b.sessions ==> t in a.sessions && a.sessions[t] == b.sessions[t])
    && (forall t :: t in a.sessions && t !in b.sessions ==> !Outlives(a.sessions[t], now) && a.sessions[t].At?)
    && (forall t :: t in b.sessions ==> SessionData(a, t) == SessionData(b, t))
    && (forall t :: t in b.data ==> t in a.data)
  }

  /** Only tokens that were there or were created are known. */
  lemma {:induction false} KnownTokens(s: State, es: seq<Event>, t: Token)
    ensures var r := Run(s, es);
            (t in r.sessions || t in r.data) && t !in s.sessions && t !in s.data
            ==> exists i :: 0 <= i < |es| && es[i].Create? && es[i].token == t
  {
    if es != [] {
      var n := |es| - 1;
      KnownTokens(s, es[..n], t);
      if i :| 0 <= i < n && es[..n][i].Create? && es[..n][i].token == t {
        assert es[i].Create? && es[i].token == t;
      }
    }
  }

  lemma {:induction false} CleanupsAreNoCreations(es: seq<Event>, e: Event)
    ensures e in WithoutCleanups(es) <==> e in es && !e.Cleanup?
  {
    if es != [] {
      var n := |es| - 1;
      CleanupsAreNoCreations(es[..n], e);
      assert es == es[..n] + [es[n]];
    }
  }

  lemma {:induction false} RunsStayWellFormed(s: State, es: seq<Event>)
    requires WellFormed(s)
    ensures WellFormed(Run(s, es))
  {
    if es != [] {
      RunsStayWellFormed(s, es[..|es| - 1]);
    }
  }

  lemma StepKeepsTidied(a: State, b: State, e: Event, before: real)
    requires Tidied(a, b, before) && before <= e.now && !e.Cleanup? && WellFormed(a)
    requires e.Create? ==> e.token !in a.data && e.token !in a.sessions
    ensures Tidied(Next(a, e), Next(b, e), e.now)
    ensures e.Validate? ==> Answer(a, e) == Answer(b, e)
  {
  }

  function LastTime(es: seq<Event>): real {
    if es == [] then 0.0 else es[|es| - 1].now
  }

  lemma NewTokenIsUnknown(s: State, es: seq<Event>)
    requires Proper(s, es) && es != [] && es[|es| - 1].Create?
    ensures var n := |es| - 1;
            var r := Run(s, WithoutCleanups(es[..n]));
            es[n].token !in r.sessions && es[n].token !in r.data
  {
    var n := |es| - 1;
    var t := es[n].token;
    var kept := WithoutCleanups(es[..n]);
    KnownTokens(s, kept, t);
    forall i | 0 <= i < |kept| && kept[i].Create?
      ensures kept[i].token != t
    {
      CleanupsAreNoCreations(es[..n], kept[i]);
      var j :| 0 <= j < n && es[j] == kept[i];
    }
  }

  /** A run with cleanups and the same run without them stay alike. */
  lemma {:induction false} CleanupsAreInvisible(s: State, es: seq<Event>)
    requires WellFormed(s) && Proper(s, es)
    ensures Tidied(Run(s, WithoutCleanups(es)), Run(s, es), LastTime(es))
    ensures Outputs(s, WithoutCleanups(es)) == Outputs(s, es)
  {
    if es != [] {
      var n := |es| - 1;
      var kept := WithoutCleanups(es[..n]);
      ProperPrefix(s, es);
      CleanupsAreInvisible(s, es[..n]);
      RunsStayWellFormed(s, kept);
      var a, b := Run(s, kept), Run(s, es[..n]);
      var before := if n == 0 then es[n].now else LastTime(es[..n]);
      if n == 0 {
        assert a == b;
      }
      if es[n].Cleanup? {
        assert WithoutCleanups(es) == kept + [] == kept;
      } else {
        if es[n].Create? {
          NewTokenIsUnknown(s, es);
        }
        StepKeepsTidied(a, b, es[n], before);
        assert WithoutCleanups(es) == kept + [es[n]];
        assert (kept + [es[n]])[..|kept|] == kept;
      }
    }
  }

  /** With a malformed time stamp it is otherwise: a cleanup drops the session, a validation
      renews it. */
  lemma MalformedStampsAreSeen(s: State, t: Token, now: real)
    requires t in s.sessions && s.sessions[t].Malformed?
    ensures var es := [Cleanup(now), Validate(t, now)];
            Proper(s, es) && Outputs(s, es) == [Refused] && Outputs(s, WithoutCleanups(es)) == [Accepted(SessionData(s, t))]
  {
    var es := [Cleanup(now), Validate(t, now)];
    assert es[..1] == [Cleanup(now)] && [Cleanup(now)][..0] == [];
    assert Run(s, []) == s && Outputs(s, []) == [] && WithoutCleanups([]) == [];
    assert Run(s, [Cleanup(now)]) == Clean(s, now);
    assert Outputs(s, [Cleanup(now)]) == [];
    assert WithoutCleanups([Cleanup(now)]) == [];
    assert WithoutCleanups(es) == [Validate(t, now)];
    assert [Validate(t, now)][..0] == [];
  }

  /** Cleanups are invisible in all runs exactly if no stored time stamp is malformed. */
  lemma CleanupsAreInvisibleExactlyIfWellFormed(s: State)
    ensures WellFormed(s)
            <==> forall es :: Proper(s, es) ==> Outputs(s, es) == Outputs(s, WithoutCleanups(es))
  {
    if WellFormed(s) {
      forall es | Proper(s, es)
        ensures Outputs(s, es) == Outputs(s, WithoutCleanups(es))
      {
        CleanupsAreInvisible(s, es);
      }
    } else {
      var t :| t in s.sessions && s.sessions[t].Malformed?;
      MalformedStampsAreSeen(s, t, 0.0);
    }
  }

  // ---------------------------------------------------------------- how long a session lasts

  /** The successful validations of a token in a run. */
  function Successes(s: State, es: seq<Event>, t: Token): nat {
    if es == [] then 0
    else
      var n := |es| - 1;
      Successes(s, es[..n], t)
      + if es[n].Validate? && es[n].token == t && Accepts(Run(s, es[..n]), t, es[n].now) then 1 else 0
  }

  /** When the token was created in the run, if it was. */
  function CreatedAt(es: seq<Event>, t: Token): Option<real> {
    if es == [] then None
    else if es[|es| - 1].Create? && es[|es| - 1].token == t then Some(es[|es| - 1].now)
    else CreatedAt(es[..|es| - 1], t)
  }

  /** The end of a session created in the run. */
  ghost function ValidUntil(s: State, es: seq<Event>, t: Token): Option<real> {
    if CreatedAt(es, t).None? then None
    else Some(CreatedAt(es, t).value + 900.0 * (Successes(s, es, t) + 1) as real)
  }

  /** What is stored for a token that the run created, or did not, at a later time `now`. */
  ghost predicate Tracked(s: State, es: seq<Event>, t: Token) {
    var r := Run(s, es);
    var until := ValidUntil(s, es, t);
    && (t in r.sessions ==> until.Some? && r.sessions[t] == At(until.value))
    && (t !in r.sessions && until.Some? ==> until.value < LastTime(es))
    && (until.None? ==> Successes(s, es, t) == 0)
  }

  lemma {:induction false} CreatedIsMentioned(es: seq<Event>, t: Token)
    ensures CreatedAt(es, t).Some? ==> exists i :: 0 <= i < |es| && es[i].Create? && es[i].token == t
  {
    if es != [] {
      CreatedIsMentioned(es[..|es| - 1], t);
      var before := es[..|es| - 1];
      if i :| 0 <= i < |before| && before[i].Create? && before[i].token == t {
        assert es[i].Create? && es[i].token == t;
      }
    }
  }

  lemma {:induction false} RunsAreTracked(s: State, es: seq<Event>, t: Token)
    requires Proper(s, es) && t !in s.sessions && t !in s.data
    ensures Tracked(s, es, t)
  {
    if es != [] {
      var n := |es| - 1;
      ProperPrefix(s, es);
      RunsAreTracked(s, es[..n], t);
      assert n > 0 ==> LastTime(es[..n]) <= es[n].now;
      if es[n].Create? && es[n].token == t {
        CreatedIsMentioned(es[..n], t);
        assert CreatedAt(es[..n], t).None?;
      }
    }
  }

  /** In every run, with any cleanups, a token is accepted exactly if it was created and its
      time is not over: a quarter of an hour from its creation, and one more for every
      successful validation. */
  lemma AcceptedExactlyInTime(s: State, es: seq<Event>, t: Token, now: real)
    requires t !in s.sessions && t !in s.data && Proper(s, es + [Validate(t, now)])
    ensures Accepts(Run(s, es), t, now)
            <==> ValidUntil(s, es, t).Some? && now <= ValidUntil(s, es, t).value
  {
    var all := es + [Validate(t, now)];
    assert all[..|es|] == es;
    ProperPrefix(s, all);
    RunsAreTracked(s, es, t);
    assert all[|es|].now == now;
    if es != [] {
      assert all[|es| - 1] == es[|es| - 1];
      assert LastTime(es) <= now;
    }
  }

  /** What was given with the token when the run created it; an empty dict counts as nothing. */
  function GivenData(es: seq<Event>, t: Token): Option<Data> {
    if es == [] then None
    else
      var last := es[|es| - 1];
      if last.Create? && last.token == t then if last.data == Some([]) then None else last.data
      else GivenData(es[..|es| - 1], t)
  }

  lemma {:induction false} DataIsKept(s: State, es: seq<Event>, t: Token)
    requires Proper(s, es) && t !in s.sessions && t !in s.data
    ensures t in Run(s, es).sessions ==> SessionData(Run(s, es), t) == GivenData(es, t)
  {
    if es != [] {
      var n := |es| - 1;
      ProperPrefix(s, es);
      DataIsKept(s, es[..n], t);
      if es[n].Create? && es[n].token == t {
        KnownTokens(s, es[..n], t);
      }
    }
  }

  /** In every run, with any cleanups, an accepted session has exactly the data it was created
      with. */
  lemma AcceptedSessionsKeepTheirData(s: State, es: seq<Event>, t: Token, now: real)
    requires Proper(s, es) && t !in s.sessions && t !in s.data && Accepts(Run(s, es), t, now)
    ensures Answer(Run(s, es), Validate(t, now)) == Accepted(GivenData(es, t))
  {
    DataIsKept(s, es, t);
  }

  /** A stored session does not come back to life by itself. */
  ghost predicate Over(s: State, t: Token, now: real) {
    t in s.sessions ==> s.sessions[t].At? && s.sessions[t].seconds < now
  }

  lemma {:induction false} OverStaysOver(s: State, es: seq<Event>, i: nat, t: Token)
    requires Proper(s, es) && i < |es| && es[i] == Validate(t, es[i].now)
    requires !Accepts(Run(s, es[..i]), t, es[i].now)
    ensures Over(Run(s, es), t, es[i].now)
  {
    var n := |es| - 1;
    if i < n {
      ProperPrefix(s, es);
      assert es[..n][..i] == es[..i];
      OverStaysOver(s, es[..n], i, t);
    }
  }

  /** A session that is refused once is refused forever. */
  lemma RefusedForever(s: State, es: seq<Event>, i: nat, j: nat)
    requires Proper(s, es) && i < j < |es| && es[i].Validate? && es[j].Validate? && es[i].token == es[j].token
    requires Answer(Run(s, es[..i]), es[i]) == Refused
    ensures Answer(Run(s, es[..j]), es[j]) == Refused
  {
    assert es[..j][..i] == es[..i];
    assert Proper(s, es[..j]);
    OverStaysOver(s, es[..j], i, es[i].token);
  }
}

module Ingress {
  import opened Wrappers
  import opened IngressSpec

  class Ingress {
    var sessions: map<Token, Stamp>
    var sessionsData: map<Token, Data>

    ghost function View(): State
      reads this
    {
      State(sessions, sessionsData)
    }

    constructor (sessions: map<Token, Stamp>, sessionsData: map<Token, Data>)
      ensures View() == State(sessions, sessionsData)
    {
      this.sessions, this.sessionsData := sessions, sessionsData;
    }

    method GetSessionData(session: Token) returns (data: Option<Data>)
      ensures data == SessionData(View(), session)
    {
      if session in sessionsData && sessionsData[session] != [] {
        return Some(sessionsData[session]);
      }
      return None;
    }

    method CleanupSessions(now: real)
      modifies this
      ensures View() == Next(old(View()), Cleanup(now))
    {
      var kept: map<Token, Stamp> := map[];
      var keptData: map<Token, Data> := map[];
      var rest := sessions.Keys;
      while rest != {}
        invariant View() == old(View()) && rest <= sessions.Keys
        invariant forall t :: t in kept <==> t in sessions && t !in rest && Outlives(sessions[t], now)
        invariant forall t :: t in kept ==> kept[t] == sessions[t]
        invariant forall t :: t in keptData <==> t in kept && SessionData(View(), t).Some?
        invariant forall t :: t in keptData ==> keptData[t] == sessionsData[t]
      {
        var session :| session in rest;
        rest := rest - {session};
        var valid := sessions[session];
        if valid.Malformed? || valid.seconds < now {
          continue;
        }
        kept := kept[session := valid];
        var data := GetSessionData(session);
        if data.Some? {
          keptData := keptData[session := data.value];
        }
      }
      assert kept == Clean(View(), now).sessions;
      assert keptData == Clean(View(), now).data;
      sessions := kept;
      sessionsData := keptData;
    }

    /** `token` is a newly drawn random token. */
    method CreateSession(token: Token, data: Option<Data>, now: real) returns (session: Token)
      modifies this
      ensures View() == Next(old(View()), Create(token, data, now)) && session == token
    {
      session := token;
      sessions := sessions[session := At(now + QUARTER)];
      if data.Some? {
        sessionsData := sessionsData[session := data.value];
      }
    }

    method ValidateSession(session: Token, now: real) returns (valid: bool)
      modifies this`sessions
      ensures View() == Next(old(View()), Validate(session, now))
      ensures valid <==> Answer(old(View()), Validate(session, now)).Accepted?
    {
      if session !in sessions {
        return false;
      }
      var stamp := sessions[session];
      if stamp.Malformed? {
        sessions := sessions[session := At(now + QUARTER)];
        return true;
      }
      if stamp.seconds < now {
        return false;
      }
      sessions := sessions[session := At(stamp.seconds + QUARTER)];
      return true;
    }
  }
}
