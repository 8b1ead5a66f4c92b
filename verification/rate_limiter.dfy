/**
 The API rate limiter: one counter per key and minute in the shared cache. Callers read the clock,
 add the counter and increment it in three steps that interleave freely.
 */
module RateLimiter {
  import opened Wrappers
  import opened SharedCache

  const WINDOW := 60
  const SLACK := 5
  const COUNTER_TTL := 65.0
  const DEFAULT_LIMIT := 120

  /** `limit or default_limit()`; `configured` is API_RATE_LIMIT_PER_MINUTE when it is a number. A negative
      limit is kept, and lets nothing through. */
  function EffectiveLimit(limit: Option<int>, configured: Option<int>): (r: int)
    ensures r <= 0 ==> limit == Some(r) && r < 0
    ensures limit.Some? && limit.value != 0 ==> limit == Some(r)
    ensures (limit.None? || limit.value == 0) && configured.Some? && configured.value > 0 ==> configured == Some(r)
    ensures (limit.None? || limit.value == 0) && (configured.None? || configured.value <= 0) ==> r == 120
  {
    if limit.Some? && limit.value != 0 then limit.value
    else if configured.Some? && configured.value > 0 then configured.value
    else DEFAULT_LIMIT
  }

  /** The minute a clock reading falls into. */
  function WindowOf(at: real): (w: int)
    requires at >= 0.0
    ensures 0 <= w && (60 * w) as real <= at < (60 * (w + 1)) as real
  {
    assert at.Floor as real <= at < at.Floor as real + 1.0;
    at.Floor / WINDOW
  }

  datatype Phase =
    | Read(window: int, at: real)
    | Added(window: int, at: real)
    | Counted(window: int, at: real, allowed: bool)

  datatype State = State(now: real, limit: int, counters: map<int, Entry<nat>>, callers: map<nat, Phase>)

  datatype Action = Tick(seconds: real) | ReadClock(id: nat) | AddCounter(id: nat) | Increment(id: nat)

  predicate Enabled(s: State, a: Action) {
    s.now >= 0.0 &&
    match a
    case Tick(seconds) => seconds >= 0.0
    case ReadClock(id) => id !in s.callers
    case AddCounter(id) => id in s.callers && s.callers[id].Read?
    case Increment(id) => id in s.callers && s.callers[id].Added?
  }

  /** `cache.incr` of a missing key raises, and then the call is let through. */
  function Apply(s: State, a: Action): State
    requires Enabled(s, a)
  {
    match a
    case Tick(seconds) => s.(now := s.now + seconds)
    case ReadClock(id) => s.(callers := s.callers[id := Read(WindowOf(s.now), s.now)])
    case AddCounter(id) =>
      var w := s.callers[id].window;
      s.(counters := s.counters[w := Add(Lookup(s.counters, w), 0, s.now, COUNTER_TTL).value],
         callers := s.callers[id := Added(w, s.callers[id].at)])
    case Increment(id) =>
      var w := s.callers[id].window;
      match Get(Lookup(s.counters, w), s.now)
      case None => s.(callers := s.callers[id := Counted(w, s.callers[id].at, true)])
      case Some(count) =>
        s.(counters := s.counters[w := s.counters[w].(value := count + 1)],
           callers := s.callers[id := Counted(w, s.callers[id].at, count + 1 <= s.limit)])
  }

  /** What the slack is for: the counter has not expired when it is incremented, nor when it is added although
      calls were counted already. */
  predicate CounterAlive(s: State, a: Action)
    requires Enabled(s, a)
  {
    match a
    case AddCounter(id) =>
      var w := s.callers[id].window;
      Get(Lookup(s.counters, w), s.now).Some? || Hits(s, w) == {}
    case Increment(id) => Get(Lookup(s.counters, s.callers[id].window), s.now).Some?
    case _ => true
  }

  /** A caller is through with the cache before its minute is over by more than the slack. */
  predicate Timely(s: State, a: Action) {
    (a.AddCounter? || a.Increment?) && a.id in s.callers
    ==> s.now < (60 * (s.callers[a.id].window + 1) + 5) as real
  }

  function Hits(s: State, w: int): set<nat> {
    set id | id in s.callers && s.callers[id].Counted? && s.callers[id].window == w
  }

  function Allowed(s: State, w: int): set<nat> {
    set id | id in s.callers && s.callers[id].Counted? && s.callers[id].window == w && s.callers[id].allowed
  }

  /** How many of so many hits a limit lets through. */
  function Within(hits: nat, limit: int): nat {
    if limit < 0 then 0 else if hits < limit then hits else limit
  }

  predicate CallerOk(s: State, c: Phase) {
    && 0.0 <= c.at <= s.now && c.window == WindowOf(c.at)
    && (!c.Read? ==> c.window in s.counters)
  }

  /** The minute has let min(hits, limit) calls through. */
  predicate AllowsTheLimit(s: State, w: int) {
    |Allowed(s, w)| == Within(|Hits(s, w)|, s.limit)
  }

  predicate WindowOk(s: State, w: int) {
    && AllowsTheLimit(s, w)
    && (w in s.counters ==>
         s.counters[w].value == |Hits(s, w)| && s.counters[w].expires >= (WINDOW * (w + 1) + SLACK) as real)
    && (w !in s.counters ==> Hits(s, w) == {})
  }

  ghost predicate Inv(s: State) {
    && (forall id :: id in s.callers ==> CallerOk(s, s.callers[id]))
    && (forall w :: WindowOk(s, w))
  }

  lemma SameWindows(s: State, t: State, w: int)
    requires WindowOk(s, w) && t.limit == s.limit
    requires Hits(t, w) == Hits(s, w) && Allowed(t, w) == Allowed(s, w)
    requires Lookup(t.counters, w) == Lookup(s.counters, w)
    ensures WindowOk(t, w)
  {
    assert w in s.counters <==> Lookup(s.counters, w).Some?;
    assert w in t.counters <==> Lookup(t.counters, w).Some?;
  }

  lemma AddKeeps(s: State, id: nat)
    requires Inv(s) && Enabled(s, AddCounter(id)) && CounterAlive(s, AddCounter(id))
    ensures Inv(Apply(s, AddCounter(id)))
  {
    var t := Apply(s, AddCounter(id));
    var w := s.callers[id].window;
    assert CallerOk(s, s.callers[id]);
    forall v ensures WindowOk(t, v) {
      assert WindowOk(s, v);
      assert Hits(t, v) == Hits(s, v) && Allowed(t, v) == Allowed(s, v);
      if v != w {
        SameWindows(s, t, v);
      }
    }
    forall i | i in t.callers ensures CallerOk(t, t.callers[i]) {
      assert i in s.callers && CallerOk(s, s.callers[i]);
    }
  }

  lemma IncrementCounts(s: State, id: nat)
    requires Inv(s) && Enabled(s, Increment(id)) && CounterAlive(s, Increment(id))
    ensures var t, w := Apply(s, Increment(id)), s.callers[id].window;
            && t.callers == s.callers[id := Counted(w, s.callers[id].at, |Hits(s, w)| + 1 <= s.limit)]
            && w in s.counters && t.counters == s.counters[w := s.counters[w].(value := |Hits(s, w)| + 1)]
            && WindowOk(t, w)
  {
    var t, w := Apply(s, Increment(id)), s.callers[id].window;
    assert CallerOk(s, s.callers[id]) && WindowOk(s, w);
    OneMore(s, t, id);
  }

  lemma OneMore(s: State, t: State, id: nat)
    requires id in s.callers && !s.callers[id].Counted?
    requires id in t.callers && t.callers[id].Counted? && t.callers == s.callers[id := t.callers[id]]
    ensures var w := t.callers[id].window;
            && id !in Hits(s, w) && Hits(t, w) == Hits(s, w) + {id}
            && id !in Allowed(s, w)
            && Allowed(t, w) == if t.callers[id].allowed then Allowed(s, w) + {id} else Allowed(s, w)
  {
  }

  lemma IncrementKeeps(s: State, id: nat)
    requires Inv(s) && Enabled(s, Increment(id)) && CounterAlive(s, Increment(id))
    ensures Inv(Apply(s, Increment(id)))
  {
    var t, w := Apply(s, Increment(id)), s.callers[id].window;
    IncrementCounts(s, id);
    forall v | v != w ensures WindowOk(t, v) {
      assert WindowOk(s, v);
      assert Hits(t, v) == Hits(s, v) && Allowed(t, v) == Allowed(s, v);
      SameWindows(s, t, v);
    }
    assert CallerOk(s, s.callers[id]);
    forall i | i in t.callers ensures CallerOk(t, t.callers[i]) {
      assert i in s.callers && CallerOk(s, s.callers[i]);
    }
  }

  lemma OtherKeeps(s: State, a: Action)
    requires Inv(s) && Enabled(s, a) && (a.Tick? || a.ReadClock?)
    ensures Inv(Apply(s, a))
  {
    var t := Apply(s, a);
    forall v ensures WindowOk(t, v) {
      assert WindowOk(s, v);
      assert Hits(t, v) == Hits(s, v) && Allowed(t, v) == Allowed(s, v);
      SameWindows(s, t, v);
    }
    forall i | i in t.callers ensures CallerOk(t, t.callers[i]) {
      assert i in s.callers ==> CallerOk(s, s.callers[i]);
    }
  }

  lemma LateCallBreaks(s: State, a: Action)
    requires Inv(s) && Enabled(s, a) && !CounterAlive(s, a)
    ensures !Inv(Apply(s, a))
  {
    var t, w := Apply(s, a), s.callers[a.id].window;
    assert CallerOk(s, s.callers[a.id]) && WindowOk(s, w);
    if a.Increment? {
      OneMore(s, t, a.id);
    } else {
      assert Hits(t, w) == Hits(s, w);
    }
    assert !WindowOk(t, w);
  }

  /** Counters and hits stay in step exactly as long as no counter expires under a caller. */
  lemma StepKeeps(s: State, a: Action)
    requires Inv(s) && Enabled(s, a)
    ensures Inv(Apply(s, a)) <==> CounterAlive(s, a)
  {
    if !CounterAlive(s, a) {
      LateCallBreaks(s, a);
    } else {
      match a {
        case AddCounter(id) => AddKeeps(s, id);
        case Increment(id) => IncrementKeeps(s, id);
        case _ => OtherKeeps(s, a);
      }
    }
  }

  /** The call that is one too many: its minute still lets min(hits, limit) calls through exactly when the
      counter is there, or the limit is not reached yet. */
  lemma IncrementIsExact(s: State, id: nat)
    requires Inv(s) && Enabled(s, Increment(id))
    ensures AllowsTheLimit(Apply(s, Increment(id)), s.callers[id].window)
       <==> CounterAlive(s, Increment(id)) || |Hits(s, s.callers[id].window)| < s.limit
  {
    assert CallerOk(s, s.callers[id]) && WindowOk(s, s.callers[id].window);
    OneMore(s, Apply(s, Increment(id)), id);
  }

  /** Within the slack no counter expires. */
  lemma TimelyFindsCounter(s: State, a: Action)
    requires Inv(s) && Enabled(s, a) && Timely(s, a)
    ensures CounterAlive(s, a)
  {
    if a.AddCounter? || a.Increment? {
      assert CallerOk(s, s.callers[a.id]) && WindowOk(s, s.callers[a.id].window);
    }
  }

  // ---------------------------------------------------------------- runs

  ghost predicate Start(s: State) {
    s.now >= 0.0 && s.counters == map[] && s.callers == map[]
  }

  ghost predicate Run(states: seq<State>, actions: seq<Action>) {
    && |states| == |actions| + 1 && Start(states[0])
    && forall i :: 0 <= i < |actions| ==>
         Enabled(states[i], actions[i]) && states[i + 1] == Apply(states[i], actions[i])
  }

  /** No counter expires under a caller. */
  ghost predicate Prompt(states: seq<State>, actions: seq<Action>)
    requires Run(states, actions)
  {
    forall i :: 0 <= i < |actions| ==> CounterAlive(states[i], actions[i])
  }

  lemma {:induction false} RunKeeps(states: seq<State>, actions: seq<Action>)
    requires Run(states, actions) && Prompt(states, actions)
    ensures Inv(states[|actions|]) && states[|actions|].limit == states[0].limit
  {
    if actions == [] {
      forall w ensures WindowOk(states[0], w) {
        assert Hits(states[0], w) == {} && Allowed(states[0], w) == {};
      }
    } else {
      var k := |actions| - 1;
      assert Run(states[..k + 1], actions[..k]) && Prompt(states[..k + 1], actions[..k]);
      RunKeeps(states[..k + 1], actions[..k]);
      assert Enabled(states[k], actions[k]) && CounterAlive(states[k], actions[k]);
      StepKeeps(states[k], actions[k]);
    }
  }

  /** In particular none does when every caller is through within the slack. */
  lemma {:induction false} TimelyRunIsPrompt(states: seq<State>, actions: seq<Action>)
    requires Run(states, actions) && forall i :: 0 <= i < |actions| ==> Timely(states[i], actions[i])
    ensures Prompt(states, actions)
  {
    if actions != [] {
      var k := |actions| - 1;
      assert Run(states[..k + 1], actions[..k]);
      TimelyRunIsPrompt(states[..k + 1], actions[..k]);
      RunKeeps(states[..k + 1], actions[..k]);
      assert Enabled(states[k], actions[k]) && Timely(states[k], actions[k]);
      TimelyFindsCounter(states[k], actions[k]);
      forall i | 0 <= i < k ensures CounterAlive(states[i], actions[i]) {
        assert CounterAlive(states[..k + 1][i], actions[..k][i]);
      }
    }
  }

  /** However the callers' steps interleave, every minute lets exactly min(hits, limit) calls through. */
  lemma ExactlyTheLimit(states: seq<State>, actions: seq<Action>, w: int)
    requires Run(states, actions) && Prompt(states, actions)
    ensures var s := states[|actions|]; |Allowed(s, w)| == Within(|Hits(s, w)|, states[0].limit)
  {
    RunKeeps(states, actions);
    assert WindowOk(states[|actions|], w);
  }

  /** Calls let through whose clock reading lies in the 60 seconds from `from` on. */
  function AllowedIn(s: State, from: real): set<nat> {
    set id | id in s.callers && s.callers[id].Counted? && s.callers[id].allowed
             && from <= s.callers[id].at < from + 60.0
  }

  /** Any 60 seconds, wherever they begin, let at most twice the limit through. */
  lemma AnyMinute(states: seq<State>, actions: seq<Action>, from: real)
    requires Run(states, actions) && Prompt(states, actions) && from >= 0.0
    ensures |AllowedIn(states[|actions|], from)| <= if states[0].limit < 0 then 0 else 2 * states[0].limit
  {
    RunKeeps(states, actions);
    var s, w := states[|actions|], WindowOf(from);
    forall id | id in AllowedIn(s, from) ensures id in Allowed(s, w) + Allowed(s, w + 1) {
      assert CallerOk(s, s.callers[id]);
      assert w <= WindowOf(s.callers[id].at) <= w + 1;
    }
    SubsetSize(AllowedIn(s, from), Allowed(s, w) + Allowed(s, w + 1));
    assert WindowOk(s, w) && WindowOk(s, w + 1);
    UnionSize(Allowed(s, w), Allowed(s, w + 1));
  }

  lemma {:induction false} SubsetSize<T>(a: set<T>, b: set<T>)
    requires a <= b
    ensures |a| <= |b|
  {
    assert b == a + (b - a);
  }

  lemma UnionSize<T>(a: set<T>, b: set<T>)
    ensures |a + b| <= |a| + |b|
  {
    assert a + b == a + (b - a);
    SubsetSize(b - a, b);
  }

  // ---------------------------------------------------------------- past the slack

  function Play(s: State, actions: seq<Action>): Option<State>
    decreases |actions|
  {
    if actions == [] then Some(s)
    else if Enabled(s, actions[0]) then Play(Apply(s, actions[0]), actions[1..])
    else None
  }

  /** The slack matters: with a limit of one, a caller that increments when the counter has just
      expired is let through as the second one of its minute. */
  lemma LateCallerGetsThrough()
    ensures var end := Play(State(0.0, 1, map[], map[]),
                            [ReadClock(1), AddCounter(1), Increment(1), ReadClock(2), AddCounter(2), Tick(65.0),
                             Increment(2)]);
            end.Some? && Allowed(end.value, 0) == {1, 2}
  {
    var s0 := State(0.0, 1, map[], map[]);
    var s1 := Apply(s0, ReadClock(1));
    var s2 := Apply(s1, AddCounter(1));
    var s3 := Apply(s2, Increment(1));
    var s4 := Apply(s3, ReadClock(2));
    var s5 := Apply(s4, AddCounter(2));
    var s6 := Apply(s5, Tick(65.0));
    var s7 := Apply(s6, Increment(2));
    assert Allowed(s7, 0) == {1, 2};
    assert Play(s7, []) == Some(s7);
    assert Play(s6, [Increment(2)]) == Some(s7);
    assert Play(s5, [Tick(65.0), Increment(2)]) == Some(s7);
    assert Play(s4, [AddCounter(2), Tick(65.0), Increment(2)]) == Some(s7);
    assert Play(s3, [ReadClock(2), AddCounter(2), Tick(65.0), Increment(2)]) == Some(s7);
    assert Play(s2, [Increment(1), ReadClock(2), AddCounter(2), Tick(65.0), Increment(2)]) == Some(s7);
    assert Play(s1, [AddCounter(1), Increment(1), ReadClock(2), AddCounter(2), Tick(65.0), Increment(2)]) == Some(s7);
  }

  // ---------------------------------------------------------------- the method

  datatype RateState = RateState(limit: int, remaining: int, resetIn: int, allowed: bool)

  class Limiter {
    var counters: map<int, Entry<nat>>

    constructor ()
      ensures counters == map[]
    {
      counters := map[];
    }

    ghost function Model(now: real, limit: int): State
      reads this
    {
      State(now, limit, counters, map[])
    }

    /** `hit` by a caller that nothing disturbs: the three steps in a row. `working` is false when the
        cache is down; then the call is allowed and nothing is counted. */
    method Hit(now: real, limit: Option<int>, configured: Option<int>, working: bool) returns (r: RateState)
      requires now >= 0.0
      modifies this
      ensures r.limit == EffectiveLimit(limit, configured) && r.resetIn == 60 - now.Floor % 60
      ensures !working ==> counters == old(counters) && r.allowed && r.remaining == r.limit
      ensures working ==>
                var s1 := Apply(old(Model(now, EffectiveLimit(limit, configured))), ReadClock(0));
                var s2 := Apply(s1, AddCounter(0));
                var s3 := Apply(s2, Increment(0));
                counters == s3.counters && r.allowed == s3.callers[0].allowed
      ensures working ==> WindowOf(now) in counters
      ensures working ==>
                var count := counters[WindowOf(now)].value;
                && (r.allowed <==> count <= r.limit)
                && r.remaining == if count < r.limit then r.limit - count else 0
    {
      var bound := EffectiveLimit(limit, configured);
      var seconds := now.Floor;
      assert 0 <= seconds;
      var window := WindowOf(now);
      var resetIn := WINDOW - seconds % WINDOW;
      if !working {
        return RateState(bound, bound, resetIn, true);
      }
      var entry := Add(Lookup(counters, window), 0, now, COUNTER_TTL).value;
      var count := entry.value + 1;
      counters := counters[window := entry.(value := count)];
      r := RateState(bound, if count < bound then bound - count else 0, resetIn, count <= bound);
    }
  }
}
