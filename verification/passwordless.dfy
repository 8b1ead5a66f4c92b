/** Passkeys-only sign-in: the switch, its recovery codes and the guard on removing passkeys. */
module Passwordless {
  import opened Wrappers
  import opened RecoveryCodes

  const CODE_COUNT := 10
  const GROUPS := 4
  const GROUP_LEN := 4

  // ---------------------------------------------------------------- the text of a code

  predicate IsUpper(c: char) {
    'A' <= c <= 'Z'
  }

  predicate IsAlnum(c: char) {
    'a' <= c <= 'z' || IsUpper(c) || '0' <= c <= '9'
  }

  function Lower(c: char): char {
    if IsUpper(c) then (c as int + 32) as char else c
  }

  /** Lower case, letters and digits only. */
  function Normalise(code: string): string {
    if code == "" then ""
    else (if IsAlnum(code[0]) then [Lower(code[0])] else "") + Normalise(code[1..])
  }

  predicate IsPlain(s: string) {
    forall i :: 0 <= i < |s| ==> ('a' <= s[i] <= 'z' || '0' <= s[i] <= '9')
  }

  predicate IsRaw(s: string) {
    |s| == GROUPS * GROUP_LEN && IsPlain(s)
  }

  /** What the random draws of a new code can yield: 16 lower-case letters and digits. */
  type Raw = s: string | IsRaw(s) witness "aaaaaaaaaaaaaaaa"

  /** `'-'.join(raw[i : i + 4] ...)`: the code as it is shown. */
  function Shown(raw: Raw): string {
    raw[..4] + "-" + raw[4..8] + "-" + raw[8..12] + "-" + raw[12..]
  }

  lemma {:induction false} NormaliseAppend(a: string, b: string)
    ensures Normalise(a + b) == Normalise(a) + Normalise(b)
  {
    if a == "" {
      assert a + b == b;
    } else {
      assert (a + b)[0] == a[0] && (a + b)[1..] == a[1..] + b;
      NormaliseAppend(a[1..], b);
      Associate(Normalise([a[0]]), Normalise(a[1..]), Normalise(b));
      NormaliseOne(a[0]);
    }
  }

  lemma NormaliseOne(c: char)
    ensures Normalise([c]) == if IsAlnum(c) then [Lower(c)] else ""
    ensures Normalise([Lower(c)]) == Normalise([c])
  {
    assert [c][1..] == "" && [Lower(c)][1..] == "";
  }

  lemma {:induction false} NormaliseRaw(s: string)
    requires IsPlain(s)
    ensures Normalise(s) == s
  {
    if s != "" {
      NormaliseRaw(s[1..]);
    }
  }

  /** A letter or digit stands for itself in lower case, and nothing else for anything. */
  lemma OneCharacter(c: char)
    ensures 'a' <= c <= 'z' || '0' <= c <= '9' ==> Normalise([c]) == [c]
    ensures 'A' <= c <= 'Z' ==> Normalise([c]) == [(c as int + 32) as char]
    ensures !('a' <= c <= 'z') && !('A' <= c <= 'Z') && !('0' <= c <= '9') ==> Normalise([c]) == ""
  {
    NormaliseOne(c);
  }

  /** Sixteen of the characters that codes are drawn from make a code. */
  lemma DrawnIsRaw(s: string)
    requires |s| == 16 && forall i :: 0 <= i < |s| ==> 'a' <= s[i] <= 'z' || '0' <= s[i] <= '9'
    ensures IsRaw(s)
  {
  }

  lemma DashVanishes(a: string, b: string)
    ensures Normalise(a + "-" + b) == Normalise(a) + Normalise(b)
  {
    NormaliseAppend(a + "-", b);
    NormaliseAppend(a, "-");
    NormaliseOne('-');
  }

  /** The code on the paper is the code that was stored. */
  lemma ShownIsRaw(raw: Raw)
    ensures Normalise(Shown(raw)) == raw
  {
    var a, b, c, d := raw[..4], raw[4..8], raw[8..12], raw[12..];
    DashVanishes(a + "-" + b + "-" + c, d);
    DashVanishes(a + "-" + b, c);
    DashVanishes(a, b);
    NormaliseRaw(a);
    NormaliseRaw(b);
    NormaliseRaw(c);
    NormaliseRaw(d);
    assert raw == a + b + c + d;
  }

  lemma NormaliseThree(a: string, c: char, b: string)
    ensures Normalise(a + [c] + b) == Normalise(a) + Normalise([c]) + Normalise(b)
  {
    NormaliseAppend(a + [c], b);
    NormaliseAppend(a, [c]);
  }

  /** Typing a code with one separator more is the same code. */
  lemma SeparatorsDoNotMatter(s: string, i: nat, separator: char)
    requires i <= |s| && !IsAlnum(separator)
    ensures Normalise(s[..i] + [separator] + s[i..]) == Normalise(s)
  {
    var a, b := s[..i], s[i..];
    assert s == a + b;
    NormaliseAppend(a, b);
    NormaliseThree(a, separator, b);
    NormaliseOne(separator);
    assert Normalise(a) + "" == Normalise(a);
  }

  /** Typing a letter in the other case is the same code. */
  lemma CaseDoesNotMatter(s: string, i: nat)
    requires i < |s|
    ensures Normalise(s[i := Lower(s[i])]) == Normalise(s)
  {
    var a, b := s[..i], s[i + 1..];
    assert s == a + [s[i]] + b && s[i := Lower(s[i])] == a + [Lower(s[i])] + b;
    NormaliseThree(a, s[i], b);
    NormaliseThree(a, Lower(s[i]), b);
    NormaliseOne(s[i]);
  }

  // ---------------------------------------------------------------- the account

  /** A login: its passkeys (true: synced), whether password sign-in is off, its recovery codes. */
  datatype Account = Account(passkeys: map<nat, bool>, passwordless: bool, codes: seq<Code>)

  function Synced(passkeys: map<nat, bool>): set<nat> {
    set k | k in passkeys && passkeys[k]
  }

  predicate Eligible(passkeys: map<nat, bool>) {
    |passkeys| >= 2 || (|passkeys| >= 1 && |Synced(passkeys)| >= 1)
  }

  /** No passkey is too few, one is enough if it is synced, and two always are. */
  lemma EnoughPasskeys(passkeys: map<nat, bool>, id: nat, synced: bool)
    ensures !Eligible(map[])
    ensures Eligible(map[id := synced]) <==> synced
    ensures |passkeys| >= 2 ==> Eligible(passkeys)
  {
    var one := map[id := synced];
    assert |one.Keys| == 1;
    if synced {
      assert id in Synced(one);
    } else {
      assert Synced(one) == {};
    }
  }

  predicate Accepts(codes: seq<Code>, text: string) {
    |text| == GROUPS * GROUP_LEN && Code(text, false) in codes
  }

  datatype Operation =
    | Enable(drawn: seq<Raw>)
    | Disable
    | NewCodes(drawn: seq<Raw>)
    | Consume(typed: string)
    | AddPasskey(id: nat, synced: bool)
    | RemovePasskey(id: nat)

  /** Whether the operation is carried out; refused ones change nothing. */
  predicate Granted(a: Account, op: Operation) {
    match op
    case Enable(_) => Eligible(a.passkeys)
    case Disable => true
    case NewCodes(_) => a.passwordless
    case Consume(typed) => Accepts(a.codes, Normalise(typed))
    case AddPasskey(id, _) => id !in a.passkeys
    case RemovePasskey(id) => id in a.passkeys && (a.passwordless ==> Eligible(a.passkeys - {id}))
  }

  function After(a: Account, op: Operation): Account {
    if !Granted(a, op) then a
    else match op
      case Enable(drawn) => a.(passwordless := true, codes := Issued(drawn))
      case Disable => a.(passwordless := false, codes := [])
      case NewCodes(drawn) => a.(codes := Issued(drawn))
      case Consume(typed) => a.(codes := Spend(a.codes, Normalise(typed)))
      case AddPasskey(id, synced) => a.(passkeys := a.passkeys[id := synced])
      case RemovePasskey(id) => a.(passkeys := a.passkeys - {id})
  }

  /** Ten codes are drawn whenever codes are issued. */
  predicate Draws(op: Operation) {
    (op.Enable? || op.NewCodes?) ==> |op.drawn| == CODE_COUNT
  }

  /** No lockout: while the switch is on there are enough passkeys and ten codes, used or not; while it
      is off there are no codes. */
  predicate Safe(a: Account) {
    && (a.passwordless ==> Eligible(a.passkeys) && |a.codes| == 10)
    && (!a.passwordless ==> a.codes == [])
  }

  function Final(a: Account, ops: seq<Operation>): Account {
    if ops == [] then a else After(Final(a, ops[..|ops| - 1]), ops[|ops| - 1])
  }

  lemma AddingStaysEligible(passkeys: map<nat, bool>, id: nat, synced: bool)
    requires Eligible(passkeys) && id !in passkeys
    ensures Eligible(passkeys[id := synced])
  {
    var more := passkeys[id := synced];
    assert more.Keys == passkeys.Keys + {id};
    assert |more.Keys| == |passkeys.Keys| + 1;
  }

  lemma StepIsSafe(a: Account, op: Operation)
    requires Safe(a) && Draws(op)
    ensures Safe(After(a, op))
  {
    if op.AddPasskey? && Granted(a, op) && a.passwordless {
      AddingStaysEligible(a.passkeys, op.id, op.synced);
    }
  }

  lemma {:induction false} AlwaysSafe(a: Account, ops: seq<Operation>)
    requires Safe(a) && forall op :: op in ops ==> Draws(op)
    ensures Safe(Final(a, ops))
  {
    if ops != [] {
      var before, op := ops[..|ops| - 1], ops[|ops| - 1];
      AlwaysSafe(a, before);
      assert Draws(op);
      StepIsSafe(Final(a, before), op);
    }
  }

  // ---------------------------------------------------------------- requests that overlap

  /** Enabling, issuing new codes and removing a passkey ask a guard first, and act in later statements that
      nothing locks. */
  predicate AsksFirst(op: Operation) {
    op.Enable? || op.NewCodes? || op.RemovePasskey?
  }

  /** `asked`: the requests whose guard has said yes, and which have not acted yet. */
  datatype Busy = Busy(account: Account, asked: map<nat, Operation>)
  datatype Step = Ask(id: nat, op: Operation) | Act(id: nat) | Whole(op: Operation)

  /** What such a request does once it was allowed. */
  function Effect(a: Account, op: Operation): Account {
    match op
    case Enable(drawn) => a.(passwordless := true, codes := Issued(drawn))
    case NewCodes(drawn) => a.(codes := Issued(drawn))
    case RemovePasskey(id) => a.(passkeys := a.passkeys - {id})
    case _ => After(a, op)
  }

  function Next(b: Busy, step: Step): Busy {
    match step
    case Ask(id, op) =>
      if AsksFirst(op) && id !in b.asked && Granted(b.account, op) then b.(asked := b.asked[id := op]) else b
    case Act(id) =>
      if id in b.asked then Busy(Effect(b.account, b.asked[id]), b.asked - {id}) else b
    case Whole(op) =>
      if AsksFirst(op) then b else b.(account := After(b.account, op))
  }

  function Played(b: Busy, steps: seq<Step>): Busy {
    if steps == [] then b else Next(Played(b, steps[..|steps| - 1]), steps[|steps| - 1])
  }

  /** A request that asks first does nothing until it acts, and any other one is done at once. */
  lemma WholeAtOnce(b: Busy, op: Operation)
    ensures op.Disable? || op.Consume? || op.AddPasskey? ==> Next(b, Whole(op)) == Busy(After(b.account, op), b.asked)
    ensures op.Enable? || op.NewCodes? || op.RemovePasskey? ==> Next(b, Whole(op)) == b
  {
  }

  /** What the guard asks for still holds. */
  predicate StillAllowed(a: Account, op: Operation) {
    match op
    case Enable(_) => Eligible(a.passkeys)
    case NewCodes(_) => a.passwordless
    case RemovePasskey(id) => a.passwordless ==> Eligible(a.passkeys - {id})
    case _ => true
  }

  /** A request that acts is harmless exactly when its guard would still allow it. */
  lemma ActIsSafe(a: Account, op: Operation)
    requires Safe(a) && Draws(op)
    ensures Safe(Effect(a, op)) <==> StillAllowed(a, op)
  {
    if !AsksFirst(op) {
      StepIsSafe(a, op);
    }
  }

  predicate ActsAllowed(b: Busy, step: Step) {
    step.Act? && step.id in b.asked ==> StillAllowed(b.account, b.asked[step.id])
  }

  predicate DrawsStep(step: Step) {
    !step.Act? ==> Draws(step.op)
  }

  ghost predicate NeverLate(b: Busy, steps: seq<Step>) {
    forall i :: 0 <= i < |steps| ==> ActsAllowed(Played(b, steps[..i]), steps[i])
  }

  ghost predicate SafeAndDrawn(b: Busy) {
    Safe(b.account) && forall id :: id in b.asked ==> Draws(b.asked[id])
  }

  /** In every run of overlapping requests in which each one would still be allowed when it acts, nobody is
      locked out. */
  lemma {:induction false} OverlapStaysSafe(b: Busy, steps: seq<Step>)
    requires SafeAndDrawn(b) && NeverLate(b, steps) && forall i :: 0 <= i < |steps| ==> DrawsStep(steps[i])
    ensures SafeAndDrawn(Played(b, steps))
  {
    if steps != [] {
      var k := |steps| - 1;
      NeverLateSoFar(b, steps);
      OverlapStaysSafe(b, steps[..k]);
      var c, step := Played(b, steps[..k]), steps[k];
      assert ActsAllowed(c, step) && DrawsStep(step);
      if step.Act? && step.id in c.asked {
        ActIsSafe(c.account, c.asked[step.id]);
      } else if step.Whole? {
        StepIsSafe(c.account, step.op);
      }
    }
  }

  /** Whoever was allowed acts next. */
  ghost predicate NoOverlap(b: Busy, steps: seq<Step>) {
    forall i :: 0 <= i < |steps| && Played(b, steps[..i]).asked != map[] ==> steps[i].Act?
  }

  ghost predicate AskedAreAllowed(b: Busy) {
    && (forall id :: id in b.asked ==> StillAllowed(b.account, b.asked[id]))
    && (forall id, other :: id in b.asked && other in b.asked ==> id == other)
  }

  lemma NeverLateSoFar(b: Busy, steps: seq<Step>)
    requires steps != []
    ensures var k := |steps| - 1;
            NeverLate(b, steps) <==> NeverLate(b, steps[..k]) && ActsAllowed(Played(b, steps[..k]), steps[k])
  {
    var k := |steps| - 1;
    forall i | 0 <= i < k ensures steps[..k][..i] == steps[..i] {
    }
    if NeverLate(b, steps[..k]) {
      forall i | 0 <= i < k ensures ActsAllowed(Played(b, steps[..i]), steps[i]) {
        assert ActsAllowed(Played(b, steps[..k][..i]), steps[..k][i]);
      }
    }
  }

  lemma NoOverlapSoFar(b: Busy, steps: seq<Step>)
    requires steps != [] && NoOverlap(b, steps)
    ensures NoOverlap(b, steps[..|steps| - 1])
  {
    var k := |steps| - 1;
    forall i | 0 <= i < k && Played(b, steps[..k][..i]).asked != map[] ensures steps[..k][i].Act? {
      assert steps[..k][..i] == steps[..i];
    }
  }

  lemma {:induction false} NoOverlapIsNeverLate(b: Busy, steps: seq<Step>)
    requires b.asked == map[] && NoOverlap(b, steps)
    ensures NeverLate(b, steps) && AskedAreAllowed(Played(b, steps))
  {
    if steps != [] {
      var k := |steps| - 1;
      NoOverlapSoFar(b, steps);
      NoOverlapIsNeverLate(b, steps[..k]);
      OneStepAlone(Played(b, steps[..k]), steps[k]);
      NeverLateSoFar(b, steps);
    }
  }

  lemma OneStepAlone(b: Busy, step: Step)
    requires AskedAreAllowed(b) && (b.asked != map[] ==> step.Act?)
    ensures AskedAreAllowed(Next(b, step)) && ActsAllowed(b, step)
  {
    if step.Act? && step.id in b.asked {
      assert forall id :: id in b.asked ==> id == step.id;
    }
  }

  lemma OneMoreStep(b: Busy, steps: seq<Step>, step: Step)
    ensures Played(b, steps + [step]) == Next(Played(b, steps), step)
  {
    assert (steps + [step])[..|steps|] == steps;
  }

  lemma FourSteps(b: Busy, s1: Step, s2: Step, s3: Step, s4: Step)
    ensures Played(b, [s1, s2, s3, s4]) == Next(Next(Next(Next(b, s1), s2), s3), s4)
  {
    assert [] + [s1] == [s1] && [s1] + [s2] == [s1, s2];
    assert [s1, s2] + [s3] == [s1, s2, s3] && [s1, s2, s3] + [s4] == [s1, s2, s3, s4];
    OneMoreStep(b, [], s1);
    OneMoreStep(b, [s1], s2);
    OneMoreStep(b, [s1, s2], s3);
    OneMoreStep(b, [s1, s2, s3], s4);
  }

  /** Two requests that are both allowed before either acts. */
  function Both(one: Operation, two: Operation): seq<Step> {
    [Ask(1, one), Ask(2, two), Act(1), Act(2)]
  }

  lemma BothAct(a: Account, one: Operation, two: Operation)
    requires AsksFirst(one) && AsksFirst(two) && Granted(a, one) && Granted(a, two)
    ensures Played(Busy(a, map[]), Both(one, two)).account == Effect(Effect(a, one), two)
  {
    FourSteps(Busy(a, map[]), Ask(1, one), Ask(2, two), Act(1), Act(2));
    var asked := map[1 := one, 2 := two];
    assert Next(Next(Busy(a, map[]), Ask(1, one)), Ask(2, two)) == Busy(a, asked);
    assert (asked - {1})[2] == two;
  }

  lemma OneSyncedIsEnough(passkeys: map<nat, bool>, id: nat)
    requires id in passkeys && passkeys[id]
    ensures Eligible(passkeys)
  {
    assert id in Synced(passkeys);
  }

  /** The removals of someone's two passkeys leave none at all, with the switch on. */
  lemma TwoRemovalsLockOut(passkeys: map<nat, bool>, one: nat, two: nat, codes: seq<Code>)
    requires one != two && passkeys.Keys == {one, two} && passkeys[one] && passkeys[two] && |codes| == CODE_COUNT
    ensures var a := Account(passkeys, true, codes);
            var end := Played(Busy(a, map[]), Both(RemovePasskey(one), RemovePasskey(two))).account;
            Safe(a) && end == Account(map[], true, codes) && !Safe(end)
  {
    var a := Account(passkeys, true, codes);
    OneSyncedIsEnough(passkeys, one);
    OneSyncedIsEnough(passkeys - {one}, two);
    OneSyncedIsEnough(passkeys - {two}, one);
    BothAct(a, RemovePasskey(one), RemovePasskey(two));
    assert passkeys - {one} - {two} == map[];
  }

  /** A removal that was allowed while the switch was off acts after it was turned on. */
  lemma RemovalOverEnableLocksOut(drawn: seq<Raw>)
    requires |drawn| == CODE_COUNT
    ensures var a := Account(map[1 := true], false, []);
            var end := Played(Busy(a, map[]), Both(Enable(drawn), RemovePasskey(1))).account;
            Safe(a) && end == Account(map[], true, Issued(drawn)) && !Safe(end)
  {
    OneSyncedIsEnough(map[1 := true], 1);
    assert map[1 := true] - {1} == map[];
    BothAct(Account(map[1 := true], false, []), Enable(drawn), RemovePasskey(1));
  }

  // ---------------------------------------------------------------- single use

  /** How often `text` was accepted during a run. */
  function Successes(a: Account, ops: seq<Operation>, text: string): nat {
    if ops == [] then 0
    else
      var before, op := ops[..|ops| - 1], ops[|ops| - 1];
      Successes(a, before, text)
      + if op.Consume? && Normalise(op.typed) == text && Granted(Final(a, before), op) then 1 else 0
  }

  /** The operations that replace or delete every code. */
  predicate Replaces(op: Operation) {
    op.Enable? || op.NewCodes? || op.Disable?
  }

  function DrawnBy(op: Operation): seq<string> {
    if op.Enable? || op.NewCodes? then op.drawn else []
  }

  /** Every code that was issued during a run, in order. */
  function Drawn(a: Account, ops: seq<Operation>): seq<string> {
    if ops == [] then []
    else
      var before, op := ops[..|ops| - 1], ops[|ops| - 1];
      Drawn(a, before) + if Granted(Final(a, before), op) then DrawnBy(op) else []
  }

  /** How many unused codes with this text were replaced or deleted during a run. */
  function Discarded(a: Account, ops: seq<Operation>, text: string): nat {
    if ops == [] then 0
    else
      var before, op := ops[..|ops| - 1], ops[|ops| - 1];
      var b := Final(a, before);
      Discarded(a, before, text) + if Replaces(op) && Granted(b, op) then Unused(b.codes, text) else 0
  }

  /** Conservation, over every run: a code that was there or was issued has been used, or discarded, or
      is still there. */
  lemma {:induction false} SuccessesUseCodesUp(a: Account, ops: seq<Operation>, text: string)
    ensures Successes(a, ops, text) + Discarded(a, ops, text) + Unused(Final(a, ops).codes, text)
         == Unused(a.codes, text) + Times(Drawn(a, ops), text)
  {
    if ops != [] {
      var before, op := ops[..|ops| - 1], ops[|ops| - 1];
      SuccessesUseCodesUp(a, before, text);
      var b := Final(a, before);
      TimesJoin(Drawn(a, before), if Granted(b, op) then DrawnBy(op) else [], text);
      if op.Consume? && Granted(b, op) {
        SpendOne(b.codes, Normalise(op.typed), text);
      } else if op.Enable? || op.NewCodes? {
        IssuedTimes(op.drawn, text);
      }
    }
  }

  /** In any run from an account without codes, if the codes drawn for it differ: each of them is accepted
      at most once, however it is typed and whatever is switched or issued in between, and nothing else
      is. */
  lemma EachCodeOnce(a: Account, ops: seq<Operation>, text: string)
    requires a.codes == [] && AllDifferent(Drawn(a, ops))
    ensures Successes(a, ops, text) <= if text in Drawn(a, ops) then 1 else 0
  {
    SuccessesUseCodesUp(a, ops, text);
    DifferentTimes(Drawn(a, ops), text);
  }

  /** Once codes are replaced or deleted, an old one is never accepted again, unless the same text is drawn
      anew. */
  lemma OldCodesStop(a: Account, replacing: Operation, ops: seq<Operation>, text: string)
    requires Replaces(replacing) && Granted(a, replacing) && text !in DrawnBy(replacing)
    requires text !in Drawn(After(a, replacing), ops)
    ensures Successes(After(a, replacing), ops, text) == 0
  {
    SuccessesUseCodesUp(After(a, replacing), ops, text);
    NotDrawn(Drawn(After(a, replacing), ops), text);
    NotDrawn(DrawnBy(replacing), text);
    if !replacing.Disable? {
      IssuedTimes(replacing.drawn, text);
    }
  }

  /** A shown code that was not used yet is accepted as typed from the paper. */
  lemma ShownCodeIsAccepted(a: Account, raw: Raw)
    requires Code(raw, false) in a.codes
    ensures Granted(a, Consume(Shown(raw)))
    ensures After(a, Consume(Shown(raw))).codes == Spend(a.codes, raw)
  {
    ShownIsRaw(raw);
  }

  // ---------------------------------------------------------------- the service

  class PasswordlessService {
    var passkeys: map<nat, bool>
    var passwordless: bool
    var codes: seq<Code>

    constructor ()
      ensures Model() == Account(map[], false, [])
    {
      passkeys, passwordless, codes := map[], false, [];
    }

    ghost function Model(): Account
      reads this
    {
      Account(passkeys, passwordless, codes)
    }

    method EnableSwitch(drawn: seq<Raw>) returns (ok: bool)
      modifies this
      ensures ok == old(Granted(Model(), Enable(drawn))) && Model() == old(After(Model(), Enable(drawn)))
      ensures ok <==> Eligible(passkeys)
      ensures passkeys == old(passkeys) && (ok ==> passwordless && codes == Issued(drawn))
      ensures !ok ==> Model() == old(Model())
    {
      ok := Eligible(passkeys);
      if ok {
        passwordless := true;
        IssueCodes(drawn);
      }
    }

    method DisableSwitch() returns (changed: bool)
      modifies this
      ensures changed == old(passwordless) && Model() == old(After(Model(), Disable))
      ensures Safe(Model()) && passkeys == old(passkeys)
      ensures forall typed :: !Granted(Model(), Consume(typed))
    {
      changed := passwordless;
      passwordless := false;
      codes := [];
    }

    method ReplaceCodes(drawn: seq<Raw>) returns (ok: bool)
      modifies this
      ensures ok == old(Granted(Model(), NewCodes(drawn))) && Model() == old(After(Model(), NewCodes(drawn)))
      ensures ok == old(passwordless) && codes == if ok then Issued(drawn) else old(codes)
    {
      ok := passwordless;
      if ok {
        IssueCodes(drawn);
      }
    }

    method IssueCodes(drawn: seq<Raw>)
      modifies this`codes
      ensures codes == Issued(drawn)
    {
      codes := [];
      var i := 0;
      while i < |drawn|
        invariant i <= |drawn| && codes == Issued(drawn)[..i]
      {
        codes := codes + [Code(drawn[i], false)];
        i := i + 1;
      }
    }

    /** `consume_code`: the rows in order, the first unused one that matches is spent. */
    method ConsumeCode(typed: string) returns (ok: bool)
      modifies this`codes
      ensures ok == old(Granted(Model(), Consume(typed))) && Model() == old(After(Model(), Consume(typed)))
      ensures ok <==> |Normalise(typed)| == 16 && Code(Normalise(typed), false) in old(codes)
      ensures codes == if ok then Spend(old(codes), Normalise(typed)) else old(codes)
    {
      var text := Normalise(typed);
      if |text| != GROUPS * GROUP_LEN {
        return false;
      }
      var i := 0;
      while i < |codes|
        invariant i <= |codes| && codes == old(codes)
        invariant Code(text, false) !in codes[..i]
      {
        if !codes[i].used && codes[i].text == text {
          SpendAt(codes, text, i);
          codes := codes[i := codes[i].(used := true)];
          return true;
        }
        i := i + 1;
      }
      ok := false;
    }

    /** Removing a passkey after `can_remove_passkey` allowed it. */
    method RemoveKey(id: nat) returns (ok: bool)
      modifies this`passkeys
      ensures ok == old(Granted(Model(), RemovePasskey(id))) && Model() == old(After(Model(), RemovePasskey(id)))
      ensures ok <==> id in old(passkeys) && (passwordless ==> Eligible(old(passkeys) - {id}))
      ensures passkeys == if ok then old(passkeys) - {id} else old(passkeys)
    {
      ok := id in passkeys && (!passwordless || Eligible(passkeys - {id}));
      if ok {
        passkeys := passkeys - {id};
      }
    }
  }
}
