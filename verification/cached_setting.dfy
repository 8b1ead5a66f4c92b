/**
 Settings read through the cache: whether registration is open (kept 30 seconds) and the default theme
 (kept an hour). Readers and writers of one setting interleave freely; a cache write or delete may
 also be lost.
 */
module CachedSetting {
  import opened Wrappers
  import opened SharedCache

  datatype Setting = Registration | Theme

  const THEMES := ["smooth", "oceanic", "light", "dark", "auto", "contrast"]
  const DEFAULT := "smooth"

  function Ttl(setting: Setting): real {
    if setting.Registration? then 30.0 else 3600.0
  }

  /** What a stored value is read as: an unknown theme is the default one. */
  function Normal(setting: Setting, value: string): (r: string)
    ensures setting.Theme? ==> r in THEMES
  {
    assert THEMES[0] == DEFAULT;
    if setting.Theme? && value !in THEMES then DEFAULT else value
  }

  /** A theme that is listed is kept as it is, any other is the default one; registration is what was stored. */
  lemma NormalIs(value: string)
    ensures Normal(Registration, value) == value
    ensures Normal(Theme, value) == if IsTheme(value) then value else "smooth"
  {
    assert THEMES[0] == "smooth" && THEMES[1] == "oceanic" && THEMES[2] == "light";
    assert THEMES[3] == "dark" && THEMES[4] == "auto" && THEMES[5] == "contrast";
  }

  predicate IsTheme(value: string) {
    || value == "smooth" || value == "oceanic" || value == "light"
    || value == "dark" || value == "auto" || value == "contrast"
  }

  /** A cached value, when it was read from the store and when it was put into the cache. */
  datatype Cached = Cached(value: string, loaded: real, filled: real)
  datatype Write = Write(value: string, at: real)
  datatype Phase = Missed | Loaded(value: string, at: real)
  /** A value handed to a caller at time `at`, and where it came from. */
  datatype Served = Served(from: Cached, at: real)

  /** `writes` is everything the store ever held, oldest first; the last one is what it holds. */
  datatype State = State(setting: Setting, now: real, writes: seq<Write>, cache: Option<Entry<Cached>>,
                         readers: map<nat, Phase>, served: seq<Served>)

  datatype Action =
    | Tick(seconds: real)
    | LookUp(id: nat)
    | Load(id: nat)
    | Fill(id: nat, kept: bool)
    | Store(value: string)
    | Clear

  predicate Enabled(s: State, a: Action) {
    match a
    case Tick(seconds) => seconds >= 0.0
    case LookUp(id) => id !in s.readers
    case Load(id) => id in s.readers && s.readers[id].Missed? && s.writes != []
    case Fill(id, _) => id in s.readers && s.readers[id].Loaded?
    case _ => true
  }

  /** A cached value counts only when it is one the setting can have. */
  function Hit(s: State): Option<Cached> {
    match Get(s.cache, s.now)
    case None => None
    case Some(c) => if Normal(s.setting, c.value) == c.value then Some(c) else None
  }

  function Apply(s: State, a: Action): State
    requires Enabled(s, a)
  {
    match a
    case Tick(seconds) => s.(now := s.now + seconds)
    case LookUp(id) =>
      (match Hit(s)
       case Some(c) => s.(served := s.served + [Served(c, s.now)])
       case None => s.(readers := s.readers[id := Missed]))
    case Load(id) =>
      var value := Normal(s.setting, s.writes[|s.writes| - 1].value);
      s.(readers := s.readers[id := Loaded(value, s.now)])
    case Fill(id, kept) =>
      var c := Cached(s.readers[id].value, s.readers[id].at, s.now);
      s.(cache := if kept then Set(c, s.now, Ttl(s.setting)) else s.cache,
         readers := s.readers - {id},
         served := s.served + [Served(c, s.now)])
    case Store(value) => s.(writes := s.writes + [Write(value, s.now)])
    case Clear => s.(cache := None)
  }

  // ---------------------------------------------------------------- how stale a value can be

  /** `value` is what the setting was at the instant `at`. */
  ghost predicate WasStored(s: State, value: string, at: real) {
    exists i :: 0 <= i < |s.writes| && HeldAt(s.setting, s.writes, i, value, at)
  }

  predicate HeldAt(setting: Setting, writes: seq<Write>, i: nat, value: string, at: real)
    requires i < |writes|
  {
    && Normal(setting, writes[i].value) == value && writes[i].at <= at
    && (i + 1 < |writes| ==> at <= writes[i + 1].at)
  }

  ghost predicate FromStore(s: State, c: Cached) {
    c.loaded <= c.filled <= s.now && WasStored(s, c.value, c.loaded)
  }

  ghost predicate Inv(s: State) {
    && |s.writes| > 0 && s.writes[|s.writes| - 1].at <= s.now
    && (s.cache.Some? ==> FromStore(s, s.cache.value.value)
                          && s.cache.value.expires == s.cache.value.value.filled + Ttl(s.setting))
    && (forall id :: id in s.readers && s.readers[id].Loaded? ==>
          s.readers[id].at <= s.now && WasStored(s, s.readers[id].value, s.readers[id].at))
    && (forall r :: r in s.served ==> ServedOk(s, r))
  }

  ghost predicate ServedOk(s: State, r: Served) {
    FromStore(s, r.from) && r.from.filled <= r.at <= s.now && r.at < r.from.filled + Ttl(s.setting)
  }

  lemma StillWasStored(s: State, a: Action, value: string, at: real)
    requires Inv(s) && Enabled(s, a) && WasStored(s, value, at) && at <= s.now
    ensures WasStored(Apply(s, a), value, at)
  {
    var i :| 0 <= i < |s.writes| && HeldAt(s.setting, s.writes, i, value, at);
    assert HeldAt(s.setting, Apply(s, a).writes, i, value, at);
  }

  lemma StepKeeps(s: State, a: Action)
    requires Inv(s) && Enabled(s, a)
    ensures Inv(Apply(s, a))
  {
    var t := Apply(s, a);
    if s.cache.Some? {
      StillWasStored(s, a, s.cache.value.value.value, s.cache.value.value.loaded);
    }
    forall id | id in s.readers && s.readers[id].Loaded? ensures WasStored(t, s.readers[id].value, s.readers[id].at) {
      StillWasStored(s, a, s.readers[id].value, s.readers[id].at);
    }
    forall r | r in s.served ensures ServedOk(t, r) {
      StillWasStored(s, a, r.from.value, r.from.loaded);
    }
    if a.Load? {
      assert HeldAt(t.setting, t.writes, |t.writes| - 1, t.readers[a.id].value, t.now);
    }
  }

  ghost predicate Start(s: State) {
    s.cache == None && s.readers == map[] && s.served == [] && |s.writes| == 1 && s.writes[0].at <= s.now
  }

  ghost predicate Run(states: seq<State>, actions: seq<Action>) {
    && |states| == |actions| + 1 && Start(states[0])
    && forall i :: 0 <= i < |actions| ==>
         Enabled(states[i], actions[i]) && states[i + 1] == Apply(states[i], actions[i])
  }

  lemma {:induction false} RunKeeps(states: seq<State>, actions: seq<Action>)
    requires Run(states, actions)
    ensures Inv(states[|actions|]) && states[|actions|].setting == states[0].setting
  {
    if actions != [] {
      var k := |actions| - 1;
      assert Run(states[..k + 1], actions[..k]);
      RunKeeps(states[..k + 1], actions[..k]);
      assert Enabled(states[k], actions[k]) && states[k + 1] == Apply(states[k], actions[k]);
      StepKeeps(states[k], actions[k]);
    }
  }

  /** In every interleaving, even with lost cache writes and deletes: a value that is served was the
      setting at an instant less than the cache's lifetime plus the delay of the reader that cached it
      (between its look at the store and its cache write) ago. */
  lemma BoundedStaleness(states: seq<State>, actions: seq<Action>, r: Served, delay: real)
    requires Run(states, actions) && r in states[|actions|].served
    requires r.from.filled - r.from.loaded <= delay
    ensures WasStored(states[|actions|], r.from.value, r.from.loaded)
    ensures r.from.loaded <= r.at < r.from.loaded + (if states[0].setting == Theme then 3600.0 else 30.0) + delay
  {
    RunKeeps(states, actions);
    assert ServedOk(states[|actions|], r);
  }

  // ---------------------------------------------------------------- when a read is up to date

  /** What the setting is. */
  function Stored(s: State): string
    requires s.writes != []
  {
    Normal(s.setting, s.writes[|s.writes| - 1].value)
  }

  /** What is cached is what the setting is. */
  predicate UpToDate(s: State) {
    s.writes != [] && (s.cache.Some? ==> s.cache.value.value.value == Stored(s))
  }

  /** A reader caches a value that was overtaken by a change. */
  predicate FillsOldValue(s: State, a: Action)
    requires Enabled(s, a) && s.writes != []
  {
    a.Fill? && a.kept && s.readers[a.id].value != Stored(s)
  }

  /** A change finds another value in the cache: until it is cleared, readers get that. */
  predicate LeavesOldValue(s: State, a: Action) {
    a.Store? && s.cache.Some? && s.cache.value.value.value != Normal(s.setting, a.value)
  }

  /** The two ways a cache falls behind, and there is no other. */
  lemma StaysUpToDate(s: State, a: Action)
    requires UpToDate(s) && Enabled(s, a)
    ensures UpToDate(Apply(s, a)) <==> !FillsOldValue(s, a) && !LeavesOldValue(s, a)
  {
  }

  predicate FillsCurrentValue(s: State, a: Action) {
    a.Fill? && Enabled(s, a) && s.writes != [] ==> s.readers[a.id].value == Stored(s)
  }

  /** A change was stored, and the cache has not been cleared since. */
  predicate Dirty(actions: seq<Action>) {
    actions != [] &&
    var last := actions[|actions| - 1];
    last.Store? || (!last.Clear? && Dirty(actions[..|actions| - 1]))
  }

  /** Nobody looks the setting up between a change and its clearing. Time may pass, and readers that have
      begun may go on. */
  ghost predicate QuietChanges(actions: seq<Action>) {
    forall i :: 0 <= i < |actions| && actions[i].LookUp? ==> !Dirty(actions[..i])
  }

  /** Changes are quiet, and no reader caches a value that was overtaken. */
  ghost predicate Prompt(states: seq<State>, actions: seq<Action>)
    requires |states| == |actions| + 1
  {
    QuietChanges(actions) && forall i :: 0 <= i < |actions| ==> FillsCurrentValue(states[i], actions[i])
  }

  /** Up to date, or about to be cleared. */
  ghost predicate Follows(states: seq<State>, actions: seq<Action>)
    requires |states| == |actions| + 1
  {
    states[|actions|].writes != [] && (Dirty(actions) || UpToDate(states[|actions|]))
  }

  ghost predicate Serves(s: State, t: State) {
    |t.served| > |s.served|
  }

  lemma PromptPrefix(states: seq<State>, actions: seq<Action>)
    requires Run(states, actions) && Prompt(states, actions) && actions != []
    ensures var k := |actions| - 1; Run(states[..k + 1], actions[..k]) && Prompt(states[..k + 1], actions[..k])
  {
    var k := |actions| - 1;
    forall i | 0 <= i < k && actions[i].LookUp? ensures !Dirty(actions[..k][..i]) {
      assert actions[..k][..i] == actions[..i];
    }
    forall i | 0 <= i < k ensures FillsCurrentValue(states[..k + 1][i], actions[..k][i]) {
      assert FillsCurrentValue(states[i], actions[i]);
    }
  }

  lemma {:induction false} PromptRunFollows(states: seq<State>, actions: seq<Action>)
    requires Run(states, actions) && Prompt(states, actions)
    ensures Follows(states, actions)
  {
    if actions != [] {
      var k := |actions| - 1;
      PromptPrefix(states, actions);
      PromptRunFollows(states[..k + 1], actions[..k]);
      var s, a := states[k], actions[k];
      assert Enabled(s, a) && states[k + 1] == Apply(s, a) && FillsCurrentValue(s, a);
      if !Dirty(actions[..k]) {
        StaysUpToDate(s, a);
      }
    }
  }

  /** In such a run every value that is served is what the setting is at that moment. */
  lemma ServedIsCurrent(states: seq<State>, actions: seq<Action>)
    requires Run(states, actions) && Prompt(states, actions)
    requires actions != [] && Serves(states[|actions| - 1], states[|actions|])
    ensures var s, served := states[|actions| - 1], states[|actions|].served;
            s.writes != [] && served[|served| - 1].from.value == Stored(s)
  {
    var k := |actions| - 1;
    PromptPrefix(states, actions);
    PromptRunFollows(states[..k + 1], actions[..k]);
    assert Enabled(states[k], actions[k]) && states[k + 1] == Apply(states[k], actions[k]);
    assert FillsCurrentValue(states[k], actions[k]);
  }

  /** The simplest way to be quiet: every change is cleared at once. */
  lemma {:induction false} ClearedAtOnceIsQuiet(actions: seq<Action>)
    requires forall i :: 0 <= i < |actions| - 1 && actions[i].Store? ==> actions[i + 1].Clear?
    ensures QuietChanges(actions)
    ensures Dirty(actions) ==> actions[|actions| - 1].Store?
  {
    if actions != [] {
      var k := |actions| - 1;
      ClearedAtOnceIsQuiet(actions[..k]);
      if Dirty(actions[..k]) {
        assert actions[..k][k - 1] == actions[k - 1];
        assert actions[(k - 1) + 1].Clear?;
      }
      forall i | 0 <= i < |actions| && actions[i].LookUp? ensures !Dirty(actions[..i]) {
        if i < k {
          assert actions[..k][..i] == actions[..i] && actions[..k][i] == actions[i];
        }
      }
    }
  }

  /** Changes are quiet, and no reader stands between its look at the store and its cache write when the setting
      is changed. */
  ghost predicate NoOverlap(states: seq<State>, actions: seq<Action>)
    requires |states| == |actions| + 1
  {
    && QuietChanges(actions)
    && (forall i, id :: 0 <= i < |actions| && actions[i].Store? && id in states[i].readers ==>
          !states[i].readers[id].Loaded?)
  }

  ghost predicate LoadedAreCurrent(s: State) {
    s.writes != [] && forall id :: id in s.readers && s.readers[id].Loaded? ==> s.readers[id].value == Stored(s)
  }

  lemma {:induction false} NoOverlapIsPrompt(states: seq<State>, actions: seq<Action>)
    requires Run(states, actions) && NoOverlap(states, actions)
    ensures Prompt(states, actions) && LoadedAreCurrent(states[|actions|])
  {
    if actions != [] {
      var k := |actions| - 1;
      forall i | 0 <= i < k && actions[i].LookUp? ensures !Dirty(actions[..k][..i]) {
        assert actions[..k][..i] == actions[..i];
      }
      assert Run(states[..k + 1], actions[..k]) && NoOverlap(states[..k + 1], actions[..k]);
      NoOverlapIsPrompt(states[..k + 1], actions[..k]);
      assert Enabled(states[k], actions[k]) && states[k + 1] == Apply(states[k], actions[k]);
      forall i | 0 <= i < k ensures FillsCurrentValue(states[i], actions[i]) {
        assert states[..k + 1][i] == states[i] && actions[..k][i] == actions[i];
      }
    }
  }

  // ---------------------------------------------------------------- one caller at a time

  class SettingService {
    const setting: Setting
    var stored: string
    var cache: Option<Entry<Cached>>

    constructor (setting: Setting, stored: string)
      ensures this.setting == setting && this.stored == stored && cache == None
    {
      this.setting, this.stored, cache := setting, stored, None;
    }

    /** What is cached, if anything, is what the store says. */
    ghost predicate Current()
      reads this
    {
      cache.Some? ==> cache.value.value.value == Normal(setting, stored)
    }

    /** `registration_open()` and `default_theme()`: what is cached, if that can be a value of the setting;
        otherwise what is stored, which is cached then. So a cache that is current stays current, and one
        that is not becomes so as soon as it expires. */
    method Value(now: real) returns (value: string)
      modifies this
      ensures stored == old(stored)
      ensures old(Current()) ==> Current() && value == Normal(setting, stored)
      ensures Get(old(cache), now).None? ==> Current() && value == Normal(setting, stored)
      ensures setting.Theme? ==> value in THEMES
      ensures || (cache == old(cache) && cache.Some? && value == cache.value.value.value)
              || (cache == Some(Entry(Cached(value, now, now), now + if setting.Theme? then 3600.0 else 30.0))
                  && value == Normal(setting, stored))
    {
      var cached := Get(cache, now);
      if cached.Some? && Normal(setting, cached.value.value) == cached.value.value {
        return cached.value.value;
      }
      value := Normal(setting, stored);
      cache := Set(Cached(value, now, now), now, Ttl(setting));
    }

    /** `set_registration_open(value)`; `set_default_theme(value)` refuses what is not a theme. */
    method Change(value: string) returns (ok: bool)
      modifies this
      ensures ok <==> setting.Registration? || value in THEMES
      ensures ok ==> stored == value && cache == None && Current() && Normal(setting, stored) == value
      ensures !ok ==> stored == old(stored) && cache == old(cache)
    {
      if setting.Theme? && value !in THEMES {
        return false;
      }
      stored := value;
      cache := None;
      ok := true;
    }
  }

  function Play(s: State, actions: seq<Action>): Option<State>
    decreases |actions|
  {
    if actions == [] then Some(s)
    else if Enabled(s, actions[0]) then Play(Apply(s, actions[0]), actions[1..])
    else None
  }

  /** One write overlapping one read is enough: the reader caches what it read before the write, and a
      read that overlaps nothing then returns the old value. */
  lemma OverlapServesOldValue()
    ensures var end := Play(State(Registration, 0.0, [Write("open", 0.0)], None, map[], []),
                            [LookUp(1), Load(1), Store("closed"), Clear, Fill(1, true), LookUp(2)]);
            && end.Some? && end.value.writes[1].value == "closed"
            && end.value.served[1] == Served(Cached("open", 0.0, 0.0), 0.0)
  {
    var s0 := State(Registration, 0.0, [Write("open", 0.0)], None, map[], []);
    var s1 := Apply(s0, LookUp(1));
    var s2 := Apply(s1, Load(1));
    var s3 := Apply(s2, Store("closed"));
    var s4 := Apply(s3, Clear);
    var s5 := Apply(s4, Fill(1, true));
    var s6 := Apply(s5, LookUp(2));
    assert Play(s6, []) == Some(s6);
    assert Play(s5, [LookUp(2)]) == Some(s6);
    assert Play(s4, [Fill(1, true), LookUp(2)]) == Some(s6);
    assert Play(s3, [Clear, Fill(1, true), LookUp(2)]) == Some(s6);
    assert Play(s2, [Store("closed"), Clear, Fill(1, true), LookUp(2)]) == Some(s6);
    assert Play(s1, [Load(1), Store("closed"), Clear, Fill(1, true), LookUp(2)]) == Some(s6);
  }
}
