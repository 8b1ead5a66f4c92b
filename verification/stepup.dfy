/**
 Password re-confirmation: wrong attempts are counted in the cache under a sliding expiry. A call reads
 the counter, checks the password, and writes the counter back; the calls of one user may overlap.
 */
module StepUp {
  import opened Wrappers
  import opened SharedCache

  const MAX_ATTEMPTS := 5
  const SECONDS := 600.0

  /** What was posted: no password, a wrong one, or the user's. */
  datatype Password = Missing | Wrong | Right
  datatype Answer = Confirmed | TooMany | EnterPassword | NotCorrect

  /** A call between its two cache accesses: what it read, and whether the password is right. */
  datatype Check = Check(attempts: nat, right: bool)

  /** `failed` and `confirmed` are the times at which checks failed and succeeded. */
  datatype State = State(now: real, entry: Option<Entry<nat>>, checks: map<nat, Check>,
                         failed: seq<real>, confirmed: seq<real>)

  datatype Action = Tick(seconds: real) | Read(id: nat, password: Password) | Write(id: nat)

  function Attempts(s: State): nat {
    Get(s.entry, s.now).GetOr(0)
  }

  /** The call is answered before the password is looked at. */
  predicate Turned(s: State, password: Password) {
    Attempts(s) >= MAX_ATTEMPTS || password.Missing?
  }

  predicate Enabled(s: State, a: Action) {
    match a
    case Tick(seconds) => seconds >= 0.0
    case Read(id, _) => id !in s.checks
    case Write(id) => id in s.checks
  }

  function Apply(s: State, a: Action): State
    requires Enabled(s, a)
  {
    match a
    case Tick(seconds) => s.(now := s.now + seconds)
    case Read(id, password) =>
      if Turned(s, password) then s
      else s.(checks := s.checks[id := Check(Attempts(s), password.Right?)])
    case Write(id) =>
      if s.checks[id].right then
        s.(entry := None, checks := s.checks - {id}, confirmed := s.confirmed + [s.now])
      else
        s.(entry := Set(s.checks[id].attempts + 1, s.now, SECONDS), checks := s.checks - {id},
           failed := s.failed + [s.now])
  }

  // ---------------------------------------------------------------- runs

  ghost predicate Start(s: State) {
    s.checks == map[] && s.failed == [] && s.confirmed == []
  }

  ghost predicate Run(states: seq<State>, actions: seq<Action>) {
    && |states| == |actions| + 1 && Start(states[0])
    && forall i :: 0 <= i < |actions| ==>
         Enabled(states[i], actions[i]) && states[i + 1] == Apply(states[i], actions[i])
  }

  /** A failed call writes no less than the counter says by then: no failure is forgotten. */
  predicate Remembers(s: State, a: Action) {
    a.Write? && a.id in s.checks && !s.checks[a.id].right ==> Attempts(s) <= s.checks[a.id].attempts
  }

  ghost predicate NothingForgotten(states: seq<State>, actions: seq<Action>)
    requires |states| == |actions| + 1
  {
    forall i :: 0 <= i < |actions| ==> Remembers(states[i], actions[i])
  }

  /** How many of the times lie in the half-open interval. */
  function Count(times: seq<real>, from: real, until: real): nat {
    if times == [] then 0
    else
      var last := |times| - 1;
      Count(times[..last], from, until) + if from <= times[last] < until then 1 else 0
  }

  function Failures(s: State, from: real, until: real): nat {
    Count(s.failed, from, until)
  }

  predicate NoSuccess(s: State, from: real, until: real) {
    Count(s.confirmed, from, until) == 0
  }

  lemma {:induction false} CountsNothing(times: seq<real>, from: real, until: real)
    requires forall i :: 0 <= i < |times| ==> times[i] < from
    ensures Count(times, from, until) == 0
  {
    if times != [] {
      CountsNothing(times[..|times| - 1], from, until);
    }
  }

  lemma CountOneMore(times: seq<real>, time: real, from: real, until: real)
    ensures Count(times + [time], from, until) == Count(times, from, until) + if from <= time < until then 1 else 0
  {
    assert (times + [time])[..|times|] == times;
  }

  /** While the interval lasts, the counter is alive and has seen every failure in it. */
  predicate Counted(s: State, from: real, until: real) {
    Failures(s, from, until) > 0 && s.now < until ==>
      s.entry.Some? && Failures(s, from, until) <= s.entry.value.value && until <= s.entry.value.expires
  }

  ghost predicate Inv(s: State, from: real, until: real) {
    && Counted(s, from, until) && Failures(s, from, until) <= MAX_ATTEMPTS
    && (forall i :: 0 <= i < |s.failed| ==> s.failed[i] <= s.now)
    && (forall id :: id in s.checks ==> s.checks[id].attempts < MAX_ATTEMPTS)
  }

  /** The call writes less than the failures the interval has seen. */
  predicate Forgets(s: State, a: Action, from: real, until: real) {
    && a.Write? && a.id in s.checks && !s.checks[a.id].right
    && s.now < until && s.checks[a.id].attempts < Failures(s, from, until)
  }

  /** The counter keeps up with the failures exactly as long as no call forgets one. */
  lemma StepKeeps(s: State, a: Action, from: real, until: real)
    requires until <= from + SECONDS
    requires Inv(s, from, until) && Enabled(s, a) && NoSuccess(Apply(s, a), from, until)
    ensures Inv(Apply(s, a), from, until) <==> !Forgets(s, a, from, until)
    ensures Remembers(s, a) ==> !Forgets(s, a, from, until)
  {
    if a.Write? {
      WriteKeeps(s, a, from, until);
    }
  }

  lemma WriteKeeps(s: State, a: Action, from: real, until: real)
    requires until <= from + SECONDS
    requires Inv(s, from, until) && a.Write? && Enabled(s, a) && NoSuccess(Apply(s, a), from, until)
    ensures Inv(Apply(s, a), from, until) <==> !Forgets(s, a, from, until)
    ensures Remembers(s, a) ==> !Forgets(s, a, from, until)
  {
    if s.checks[a.id].right {
      RightKeeps(s, a, from, until);
    } else {
      WrongKeeps(s, a, from, until);
    }
    if Failures(s, from, until) > 0 && s.now < until {
      assert Attempts(s) >= Failures(s, from, until);
    }
  }

  lemma RightKeeps(s: State, a: Action, from: real, until: real)
    requires Inv(s, from, until) && a.Write? && Enabled(s, a) && NoSuccess(Apply(s, a), from, until)
    requires s.checks[a.id].right
    ensures Inv(Apply(s, a), from, until)
  {
    CountOneMore(s.confirmed, s.now, from, until);
    if s.now < from {
      CountsNothing(s.failed, from, until);
    }
  }

  lemma WrongKeeps(s: State, a: Action, from: real, until: real)
    requires until <= from + SECONDS
    requires Inv(s, from, until) && a.Write? && Enabled(s, a) && !s.checks[a.id].right
    ensures Inv(Apply(s, a), from, until) <==> !Forgets(s, a, from, until)
  {
    CountOneMore(s.failed, s.now, from, until);
    if s.now < from {
      CountsNothing(s.failed, from, until);
    }
  }

  lemma SuccessesStay(s: State, a: Action, from: real, until: real)
    requires Enabled(s, a) && NoSuccess(Apply(s, a), from, until)
    ensures NoSuccess(s, from, until)
  {
    CountOneMore(s.confirmed, s.now, from, until);
  }

  lemma {:induction false} RunKeeps(states: seq<State>, actions: seq<Action>, from: real, until: real)
    requires Run(states, actions) && NothingForgotten(states, actions)
    requires until <= from + SECONDS && NoSuccess(states[|actions|], from, until)
    ensures Inv(states[|actions|], from, until)
  {
    if actions != [] {
      var k := |actions| - 1;
      assert Enabled(states[k], actions[k]) && states[k + 1] == Apply(states[k], actions[k]);
      assert Remembers(states[k], actions[k]);
      SuccessesStay(states[k], actions[k], from, until);
      assert Run(states[..k + 1], actions[..k]) && NothingForgotten(states[..k + 1], actions[..k]);
      RunKeeps(states[..k + 1], actions[..k], from, until);
      StepKeeps(states[k], actions[k], from, until);
    }
  }

  /** Whatever happened earlier, whatever the cache held to begin with, and however the expiry slides: ten
      minutes without a success see at most five failed checks, when no failure is forgotten. */
  lemma AtMostFiveFailures(states: seq<State>, actions: seq<Action>, from: real, until: real)
    requires Run(states, actions) && NothingForgotten(states, actions)
    requires until <= from + 600.0 && NoSuccess(states[|actions|], from, until)
    ensures Failures(states[|actions|], from, until) <= 5
  {
    RunKeeps(states, actions, from, until);
  }

  /** A call begins its check only when no other one of this user is under way. */
  ghost predicate NoOverlap(states: seq<State>, actions: seq<Action>)
    requires |states| == |actions| + 1
  {
    forall i :: 0 <= i < |actions| && actions[i].Read? && !Turned(states[i], actions[i].password) ==>
      states[i].checks == map[]
  }

  ghost predicate Alone(s: State) {
    && (forall id, other :: id in s.checks && other in s.checks ==> id == other)
    && (forall id :: id in s.checks ==> Attempts(s) <= s.checks[id].attempts)
  }

  /** Calls that do not overlap forget nothing. */
  lemma {:induction false} NoOverlapForgetsNothing(states: seq<State>, actions: seq<Action>)
    requires Run(states, actions) && NoOverlap(states, actions)
    ensures NothingForgotten(states, actions) && Alone(states[|actions|])
  {
    if actions != [] {
      var k := |actions| - 1;
      assert Run(states[..k + 1], actions[..k]) && NoOverlap(states[..k + 1], actions[..k]);
      NoOverlapForgetsNothing(states[..k + 1], actions[..k]);
      assert Enabled(states[k], actions[k]) && states[k + 1] == Apply(states[k], actions[k]);
      forall i | 0 <= i < k ensures Remembers(states[i], actions[i]) {
        assert Remembers(states[..k + 1][i], actions[..k][i]);
      }
    }
  }

  // ---------------------------------------------------------------- past the bound

  function Play(s: State, actions: seq<Action>): Option<State>
    decreases |actions|
  {
    if actions == [] then Some(s)
    else if Enabled(s, actions[0]) then Play(Apply(s, actions[0]), actions[1..])
    else None
  }

  lemma {:induction false} PlayOn(s: State, actions: seq<Action>, t: State, more: seq<Action>)
    requires Play(s, actions) == Some(t)
    ensures Play(s, actions + more) == Play(t, more)
    decreases |actions|
  {
    if actions == [] {
      assert actions + more == more;
    } else {
      assert (actions + more)[1..] == actions[1..] + more;
      PlayOn(Apply(s, actions[0]), actions[1..], t, more);
    }
  }

  lemma PlayOne(s: State, a: Action)
    requires Enabled(s, a)
    ensures Play(s, [a]) == Some(Apply(s, a))
  {
    assert [a][1..] == [];
  }

  function Idle(): State {
    State(0.0, None, map[], [], [])
  }

  function Times(n: nat): seq<real> {
    if n == 0 then [] else Times(n - 1) + [0.0]
  }

  lemma {:induction false} TimesInside(n: nat, until: real)
    requires until > 0.0
    ensures Count(Times(n), 0.0, until) == n
  {
    if n > 0 {
      TimesInside(n - 1, until);
      CountOneMore(Times(n - 1), 0.0, 0.0, until);
    }
  }

  function Checking(n: nat): (checks: map<nat, Check>)
    ensures forall id :: id in checks ==> id < n
  {
    if n == 0 then map[] else Checking(n - 1)[n - 1 := Check(0, false)]
  }

  function Reads(n: nat): seq<Action> {
    if n == 0 then [] else Reads(n - 1) + [Read(n - 1, Wrong)]
  }

  /** From the last call to the first. */
  function Writes(n: nat): seq<Action> {
    if n == 0 then [] else [Write(n - 1)] + Writes(n - 1)
  }

  lemma {:induction false} ReadsBegin(n: nat)
    ensures Play(Idle(), Reads(n)) == Some(Idle().(checks := Checking(n)))
  {
    if n > 0 {
      var s := Idle().(checks := Checking(n - 1));
      ReadsBegin(n - 1);
      PlayOn(Idle(), Reads(n - 1), s, [Read(n - 1, Wrong)]);
      PlayOne(s, Read(n - 1, Wrong));
    }
  }

  lemma {:induction false} WritesFail(s: State, n: nat, m: nat)
    requires s.now == 0.0 && s.checks == Checking(n) && s.failed == Times(m)
    ensures Play(s, Writes(n)).Some? && Play(s, Writes(n)).value.failed == Times(m + n)
    decreases n
  {
    if n > 0 {
      var t := Apply(s, Write(n - 1));
      assert Checking(n) - {n - 1} == Checking(n - 1);
      assert Writes(n)[1..] == Writes(n - 1);
      WritesFail(t, n - 1, m + 1);
    }
  }

  /** Calls that overlap all see the same counter: any number of them fails at one instant. */
  lemma OverlapIsUnlimited(n: nat)
    ensures var end := Play(Idle(), Reads(n) + Writes(n));
            end.Some? && Failures(end.value, 0.0, SECONDS) == n
  {
    var s := Idle().(checks := Checking(n));
    ReadsBegin(n);
    PlayOn(Idle(), Reads(n), s, Writes(n));
    WritesFail(s, n, 0);
    TimesInside(n, SECONDS);
  }

  /** Calls one after the other. */
  function Calls(n: nat): seq<Action> {
    if n == 0 then [] else Calls(n - 1) + [Read(0, Wrong), Write(0)]
  }

  function AfterCalls(n: nat): State {
    State(0.0, if n == 0 then None else Some(Entry(n, SECONDS)), map[], Times(n), [])
  }

  lemma {:induction false} CallsFail(n: nat)
    requires n <= MAX_ATTEMPTS
    ensures Play(Idle(), Calls(n)) == Some(AfterCalls(n))
  {
    if n > 0 {
      CallsFail(n - 1);
      var s := AfterCalls(n - 1);
      PlayOn(Idle(), Calls(n - 1), s, [Read(0, Wrong), Write(0)]);
      OneCallFails(s, n - 1);
    }
  }

  lemma OneCallFails(s: State, n: nat)
    requires s.checks == map[] && Attempts(s) == n < MAX_ATTEMPTS
    ensures Play(s, [Read(0, Wrong), Write(0)])
         == Some(s.(entry := Some(Entry(n + 1, s.now + SECONDS)), failed := s.failed + [s.now]))
  {
    var s1 := Apply(s, Read(0, Wrong));
    PlayOne(s1, Write(0));
    assert [Read(0, Wrong), Write(0)][1..] == [Write(0)];
    assert s1.checks - {0} == map[];
  }

  /** Ten minutes is all it covers: five failures at once and one at the end of an interval a moment longer
      are six, without any overlap. */
  lemma LongerIntervalSeesSix(until: real)
    requires until > 600.0
    ensures var end := Play(Idle(), Calls(5) + [Tick(600.0), Read(0, Wrong), Write(0)]);
            end.Some? && Failures(end.value, 0.0, until) == 6
  {
    var s := AfterCalls(5);
    CallsFail(5);
    PlayOn(Idle(), Calls(5), s, [Tick(SECONDS), Read(0, Wrong), Write(0)]);
    var t := Apply(s, Tick(SECONDS));
    assert [Tick(SECONDS), Read(0, Wrong), Write(0)][1..] == [Read(0, Wrong), Write(0)];
    OneCallFails(t, 0);
    TimesInside(5, until);
    CountOneMore(Times(5), SECONDS, 0.0, until);
  }

  // ---------------------------------------------------------------- the method

  class StepUpService {
    var entry: Option<Entry<nat>>

    constructor ()
      ensures entry == None
    {
      entry := None;
    }

    ghost function Model(now: real): State
      reads this
    {
      State(now, entry, map[], [], [])
    }

    /** `confirm`, with nothing else of this user under way; checking the password takes `seconds`. A call
        that is turned away leaves the counter alone, a wrong password counts one more, and the right one
        clears it. */
    method Confirm(now: real, password: Password, seconds: real) returns (answer: Answer)
      requires seconds >= 0.0
      modifies this
      ensures answer == TooMany <==> old(Attempts(Model(now))) >= 5
      ensures answer == EnterPassword <==> old(Attempts(Model(now))) < 5 && password.Missing?
      ensures answer == Confirmed <==> old(Attempts(Model(now))) < 5 && password.Right?
      ensures answer in {TooMany, EnterPassword} ==> entry == old(entry)
      ensures answer == Confirmed ==> entry == None
      ensures !Turned(old(Model(now)), password) ==>
                var end := Play(old(Model(now)), [Read(0, password), Tick(seconds), Write(0)]);
                && end.Some? && entry == end.value.entry
                && (answer == Confirmed <==> end.value.confirmed == [now + seconds])
                && (answer == NotCorrect <==> end.value.failed == [now + seconds])
      ensures answer == NotCorrect ==> Attempts(Model(now + seconds)) == old(Attempts(Model(now))) + 1
    {
      ghost var s := Model(now);
      var attempts := Get(entry, now).GetOr(0);
      if attempts >= MAX_ATTEMPTS {
        return TooMany;
      }
      if password.Missing? {
        return EnterPassword;
      }
      OneCall(s, password, seconds);
      if password.Right? {
        entry := None;
        return Confirmed;
      }
      entry := Set(attempts + 1, now + seconds, SECONDS);
      answer := NotCorrect;
    }
  }

  lemma OneCall(s: State, password: Password, seconds: real)
    requires s.checks == map[] && s.failed == [] && s.confirmed == [] && seconds >= 0.0 && !Turned(s, password)
    ensures var end := Play(s, [Read(0, password), Tick(seconds), Write(0)]);
            && end.Some?
            && end.value.entry == (if password.Right? then None else Set(Attempts(s) + 1, s.now + seconds, SECONDS))
            && end.value.confirmed == (if password.Right? then [s.now + seconds] else [])
            && end.value.failed == (if password.Right? then [] else [s.now + seconds])
  {
    var steps := [Read(0, password), Tick(seconds), Write(0)];
    var s1 := Apply(s, steps[0]);
    var s2 := Apply(s1, steps[1]);
    assert steps[1..] == [Tick(seconds), Write(0)] && steps[1..][1..] == [Write(0)];
    PlayOne(s2, Write(0));
  }
}
