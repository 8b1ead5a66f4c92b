/**
 The rows behind the recovery codes of two-factor sign-in, when requests overlap. A request looks for an
 unused row whose code matches, without locking it, and saves it as used in a second statement; in between
 other requests may do the same, or replace or delete every row.
 */
module RecoveryRows {
  import opened RecoveryCodes

  /** `rows` by primary key, every key ever given out, the row each request has found, and the rows with which
      sign-ins were accepted. */
  datatype State = State(rows: map<nat, Code>, issued: set<nat>, found: map<nat, nat>, accepted: seq<nat>)

  datatype Action =
    | Find(id: nat, row: nat, text: string)
    | Save(id: nat)
    | Replace(texts: map<nat, string>)

  predicate Enabled(s: State, a: Action) {
    match a
    case Find(id, row, text) => id !in s.found && row in s.rows && s.rows[row] == Code(text, false)
    case Save(id) => id in s.found
    case Replace(texts) => texts.Keys !! s.issued
  }

  /** Saving a row that was deleted meanwhile raises, and the sign-in is refused. */
  function Apply(s: State, a: Action): State
    requires Enabled(s, a)
  {
    match a
    case Find(id, row, _) => s.(found := s.found[id := row])
    case Save(id) =>
      var row := s.found[id];
      if row in s.rows then
        s.(rows := s.rows[row := s.rows[row].(used := true)], found := s.found - {id}, accepted := s.accepted + [row])
      else
        s.(found := s.found - {id})
    case Replace(texts) =>
      s.(rows := map row | row in texts :: Code(texts[row], false), issued := s.issued + texts.Keys)
  }

  predicate NoRepeats(rows: seq<nat>) {
    forall i, j :: 0 <= i < j < |rows| ==> rows[i] != rows[j]
  }

  /** A row is used exactly when a sign-in was accepted with it, and that was one sign-in. */
  ghost predicate Inv(s: State) {
    && NoRepeats(s.accepted)
    && (forall row :: row in s.rows ==> row in s.issued && (s.rows[row].used <==> row in s.accepted))
    && (forall row :: row in s.accepted ==> row in s.issued)
    && (forall id :: id in s.found ==> s.found[id] in s.issued)
  }

  /** The row is still unused when it is saved. */
  predicate SavesUnused(s: State, a: Action) {
    a.Save? && a.id in s.found && s.found[a.id] in s.rows ==> !s.rows[s.found[a.id]].used
  }

  lemma OneMore(rows: seq<nat>, row: nat)
    requires NoRepeats(rows)
    ensures NoRepeats(rows + [row]) <==> row !in rows
    ensures forall r :: r in rows + [row] <==> r in rows || r == row
  {
    if row in rows {
      var i :| 0 <= i < |rows| && rows[i] == row;
      assert (rows + [row])[i] == (rows + [row])[|rows|];
    }
  }

  /** A step is harmless exactly when it does not save a row that is used already. */
  lemma StepKeeps(s: State, a: Action)
    requires Inv(s) && Enabled(s, a)
    ensures Inv(Apply(s, a)) <==> SavesUnused(s, a)
  {
    if a.Save? && s.found[a.id] in s.rows {
      OneMore(s.accepted, s.found[a.id]);
    }
  }

  ghost predicate Start(s: State) {
    s.found == map[] && s.accepted == [] && s.rows == map[]
  }

  ghost predicate Run(states: seq<State>, actions: seq<Action>) {
    && |states| == |actions| + 1 && Start(states[0])
    && forall i :: 0 <= i < |actions| ==>
         Enabled(states[i], actions[i]) && states[i + 1] == Apply(states[i], actions[i])
  }

  ghost predicate Careful(states: seq<State>, actions: seq<Action>)
    requires |states| == |actions| + 1
  {
    forall i :: 0 <= i < |actions| ==> SavesUnused(states[i], actions[i])
  }

  lemma {:induction false} RunKeeps(states: seq<State>, actions: seq<Action>)
    requires Run(states, actions) && Careful(states, actions)
    ensures Inv(states[|actions|])
  {
    if actions != [] {
      var k := |actions| - 1;
      assert Run(states[..k + 1], actions[..k]) && Careful(states[..k + 1], actions[..k]);
      RunKeeps(states[..k + 1], actions[..k]);
      assert Enabled(states[k], actions[k]) && SavesUnused(states[k], actions[k]);
      StepKeeps(states[k], actions[k]);
    }
  }

  /** In every run in which each row is still unused when it is saved, no code is accepted twice. */
  lemma EachRowOnce(states: seq<State>, actions: seq<Action>)
    requires Run(states, actions) && Careful(states, actions)
    ensures NoRepeats(states[|actions|].accepted)
  {
    RunKeeps(states, actions);
  }

  /** A request looks for a row only when no other one has found one that it has not saved. */
  ghost predicate NoOverlap(states: seq<State>, actions: seq<Action>)
    requires |states| == |actions| + 1
  {
    forall i :: 0 <= i < |actions| && actions[i].Find? ==> states[i].found == map[]
  }

  ghost predicate Alone(s: State) {
    && (forall id, other :: id in s.found && other in s.found ==> id == other)
    && (forall id :: id in s.found && s.found[id] in s.rows ==> !s.rows[s.found[id]].used)
  }

  lemma {:induction false} NoOverlapIsCareful(states: seq<State>, actions: seq<Action>)
    requires Run(states, actions) && NoOverlap(states, actions)
    ensures Careful(states, actions) && Alone(states[|actions|])
  {
    if actions != [] {
      var k := |actions| - 1;
      assert Run(states[..k + 1], actions[..k]) && NoOverlap(states[..k + 1], actions[..k]);
      NoOverlapIsCareful(states[..k + 1], actions[..k]);
      RunKeeps(states[..k + 1], actions[..k]);
      assert Enabled(states[k], actions[k]) && states[k + 1] == Apply(states[k], actions[k]);
      forall i | 0 <= i < k ensures SavesUnused(states[i], actions[i]) {
        assert SavesUnused(states[..k + 1][i], actions[..k][i]);
      }
    }
  }

  function Play(s: State, actions: seq<Action>): State
    decreases |actions|
  {
    if actions == [] then s
    else if Enabled(s, actions[0]) then Play(Apply(s, actions[0]), actions[1..])
    else Play(s, actions[1..])
  }

  /** Two sign-ins that both find the row before either saves it are both accepted with one code. */
  lemma TwoSignInsWithOneCode(text: string)
    ensures var steps := [Replace(map[7 := text]), Find(1, 7, text), Find(2, 7, text), Save(1), Save(2)];
            Play(State(map[], {}, map[], []), steps).accepted == [7, 7]
  {
    var s0 := State(map[], {}, map[], []);
    var s1 := Apply(s0, Replace(map[7 := text]));
    var s2 := Apply(s1, Find(1, 7, text));
    var s3 := Apply(s2, Find(2, 7, text));
    var s4 := Apply(s3, Save(1));
    var s5 := Apply(s4, Save(2));
    assert Play(s5, []) == s5;
    assert Play(s4, [Save(2)]) == s5;
    assert Play(s3, [Save(1), Save(2)]) == s5;
    assert Play(s2, [Find(2, 7, text), Save(1), Save(2)]) == s5;
    assert Play(s1, [Find(1, 7, text), Find(2, 7, text), Save(1), Save(2)]) == s5;
  }
}
