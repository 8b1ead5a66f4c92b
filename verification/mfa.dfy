/** Two-factor enrolment of one login: its authenticator devices, recovery codes and policy flags. */
module Mfa {
  import opened Wrappers
  import opened RecoveryCodes
  import opened Totp

  const CODE_COUNT := 10

  /** `secret` names the device's secret; it is unreadable when it cannot be decrypted. */
  datatype Device = Device(secret: nat, readable: bool, verified: bool)

  datatype Login = Login(devices: seq<Device>, codes: seq<Code>, mfaRequired: bool, remindAfter: Option<real>)

  /** The MAC of a counter under a secret. */
  type Macs = (nat, nat) -> Mac

  function MacOf(macs: Macs, secret: nat): nat -> Mac {
    c => macs(secret, c)
  }

  // ---------------------------------------------------------------- what the operations do

  function Select(devices: seq<Device>, verified: bool): seq<Device> {
    if devices == [] then []
    else (if devices[0].verified == verified then [devices[0]] else []) + Select(devices[1..], verified)
  }

  function Verified(devices: seq<Device>): seq<Device> {
    Select(devices, true)
  }

  function Pending(devices: seq<Device>): seq<Device> {
    Select(devices, false)
  }

  predicate Opens(macs: Macs, d: Device, code: string, at: real) {
    d.readable && Verifies(MacOf(macs, d.secret), code, at)
  }

  predicate AnyOpens(macs: Macs, devices: seq<Device>, code: string, at: real) {
    exists i :: 0 <= i < |devices| && devices[i].verified && Opens(macs, devices[i], code, at)
  }

  /** The authenticator's code, or else an unused recovery code. */
  datatype Proof = Authenticator | Recovery(text: string) | NoProof

  function ProofOf(macs: Macs, login: Login, code: string, at: real): Proof {
    var text := Compact(code);
    if text == "" then NoProof
    else if AnyOpens(macs, login.devices, text, at) then Authenticator
    else if Code(text, false) in login.codes then Recovery(text)
    else NoProof
  }

  /** A verified device's code signs in throughout its 90 seconds, whatever else the login has. */
  lemma GenuineCodeSignsIn(macs: Macs, login: Login, i: nat, c: nat, at: real)
    requires i < |login.devices| && login.devices[i].verified && login.devices[i].readable
    requires (30 * (c - 1)) as real <= at < (30 * (c + 2)) as real
    ensures ProofOf(macs, login, Hotp(macs(login.devices[i].secret, c)), at) == Authenticator
  {
    var mac := MacOf(macs, login.devices[i].secret);
    var code := Hotp(mac(c));
    HotpIsSixDigits(mac(c));
    CompactDigits(code);
    GenuineCodeWorks(mac, c, at);
    assert Opens(macs, login.devices[i], code, at);
  }

  /** What else signs in: nothing but a verified and readable device's code, or the text of an unused recovery
      code, typed with blanks or without. */
  lemma OnlyProofs(macs: Macs, login: Login, code: string, at: real)
    ensures ProofOf(macs, login, code, at) == Authenticator ==>
              exists i :: 0 <= i < |login.devices| && login.devices[i].verified && login.devices[i].readable
                          && Verifies(MacOf(macs, login.devices[i].secret), Compact(code), at)
    ensures ProofOf(macs, login, code, at).Recovery? ==>
              Code(Compact(code), false) in login.codes && ProofOf(macs, login, code, at).text == Compact(code) != ""
    ensures ProofOf(macs, login, code, at) == NoProof ==>
              Compact(code) == "" || Code(Compact(code), false) !in login.codes
  {
  }

  datatype Operation =
    | Start(secret: nat)
    | Confirm(code: string, at: real, drawn: seq<string>)
    | VerifyLogin(code: string, at: real)
    | Disable(code: string, at: real)
    | FreshCodes(drawn: seq<string>)
    | Reset
    | Snooze(until: real)

  /** Whether the operation goes through; a refused one changes nothing. `required` is the policy. */
  predicate Granted(macs: Macs, required: bool, login: Login, op: Operation) {
    match op
    case Confirm(code, at, _) =>
      Pending(login.devices) != [] && Opens(macs, Newest(login), code, at)
    case VerifyLogin(code, at) => ProofOf(macs, login, code, at) != NoProof
    case Disable(code, at) => !required && ProofOf(macs, login, code, at) != NoProof
    case Snooze(_) => !required
    case _ => true
  }

  function Newest(login: Login): Device
    requires Pending(login.devices) != []
  {
    Pending(login.devices)[|Pending(login.devices)| - 1]
  }

  function AfterProof(login: Login, proof: Proof): Login {
    if proof.Recovery? then login.(codes := Spend(login.codes, proof.text)) else login
  }

  function After(macs: Macs, required: bool, login: Login, op: Operation): Login {
    if !Granted(macs, required, login, op) then login
    else match op
      case Start(secret) => login.(devices := Verified(login.devices) + [Device(secret, true, false)])
      case Confirm(_, _, drawn) =>
        var pending := Pending(login.devices);
        login.(devices := pending[..|pending| - 1] + [Newest(login).(verified := true)],
               codes := Issued(drawn), mfaRequired := true)
      case VerifyLogin(code, at) => AfterProof(login, ProofOf(macs, login, code, at))
      case Disable(_, _) => login.(devices := [], codes := [], mfaRequired := false)
      case FreshCodes(drawn) => login.(codes := Issued(drawn))
      case Reset => login.(devices := [], codes := [])
      case Snooze(until) => login.(remindAfter := Some(until))
  }

  /** Fresh codes replace all others, and an administrator's reset takes devices and codes away; both always go
      through. */
  lemma FreshAndReset(macs: Macs, required: bool, login: Login, drawn: seq<string>)
    ensures After(macs, required, login, FreshCodes(drawn)) == login.(codes := Issued(drawn))
    ensures After(macs, required, login, Reset) == login.(devices := [], codes := [])
  {
  }

  predicate Draws(op: Operation) {
    (op.Confirm? || op.FreshCodes?) ==> |op.drawn| == CODE_COUNT
  }

  // ---------------------------------------------------------------- every reachable state

  /** At most one pending and one verified device; no verified device once two-factor was turned off;
      no recovery codes or ten of them. */
  predicate Consistent(login: Login) {
    && |Pending(login.devices)| <= 1
    && |Verified(login.devices)| <= 1
    && (!login.mfaRequired ==> Verified(login.devices) == [])
    && (|login.codes| == 0 || |login.codes| == 10)
  }

  function Final(macs: Macs, required: bool, login: Login, ops: seq<Operation>): Login {
    if ops == [] then login
    else After(macs, required, Final(macs, required, login, ops[..|ops| - 1]), ops[|ops| - 1])
  }

  lemma {:induction false} SelectAppend(a: seq<Device>, d: Device, verified: bool)
    ensures Select(a + [d], verified) == Select(a, verified) + if d.verified == verified then [d] else []
  {
    if a == [] {
      assert a + [d] == [d] && [d][1..] == [];
    } else {
      assert (a + [d])[0] == a[0] && (a + [d])[1..] == a[1..] + [d];
      SelectAppend(a[1..], d, verified);
    }
  }

  lemma {:induction false} SelectTwice(devices: seq<Device>, one: bool, two: bool)
    ensures Select(Select(devices, one), two) == if one == two then Select(devices, one) else []
  {
    if devices != [] {
      SelectTwice(devices[1..], one, two);
      var rest := Select(devices[1..], one);
      if devices[0].verified == one {
        assert Select(devices, one) == [devices[0]] + rest;
        assert ([devices[0]] + rest)[1..] == rest;
      } else {
        assert Select(devices, one) == rest;
      }
    }
  }

  /** The devices after an enrolment began, and after it was confirmed. */
  lemma Started(devices: seq<Device>, d: Device)
    requires !d.verified
    ensures Verified(Verified(devices) + [d]) == Verified(devices) && Pending(Verified(devices) + [d]) == [d]
  {
    SelectAppend(Verified(devices), d, true);
    SelectAppend(Verified(devices), d, false);
    SelectTwice(devices, true, true);
    SelectTwice(devices, true, false);
  }

  lemma {:induction false} SelectedIsThere(devices: seq<Device>, verified: bool)
    ensures forall d :: d in Select(devices, verified) ==> d in devices
  {
    if devices != [] {
      SelectedIsThere(devices[1..], verified);
    }
  }

  /** A pending device proves nothing: no code opens a login by it. */
  lemma StartedOpensNothing(macs: Macs, devices: seq<Device>, d: Device)
    requires !d.verified
    ensures forall code, at :: AnyOpens(macs, Verified(devices) + [d], code, at) ==> AnyOpens(macs, devices, code, at)
  {
    SelectedIsThere(devices, true);
    var more := Verified(devices) + [d];
    forall code, at | AnyOpens(macs, more, code, at) ensures AnyOpens(macs, devices, code, at) {
      var i :| 0 <= i < |more| && more[i].verified && Opens(macs, more[i], code, at);
      assert more[i] in devices;
    }
  }

  lemma Confirmed(devices: seq<Device>, d: Device)
    requires d.verified && |Pending(devices)| == 1
    ensures Pending(devices)[..|Pending(devices)| - 1] + [d] == [d]
    ensures Verified([d]) == [d] && Pending([d]) == []
  {
    assert [d] == [] + [d];
    SelectAppend([], d, true);
    SelectAppend([], d, false);
  }

  lemma StepConsistent(macs: Macs, required: bool, login: Login, op: Operation)
    requires Consistent(login) && Draws(op)
    ensures Consistent(After(macs, required, login, op))
  {
    match op {
      case Start(secret) => Started(login.devices, Device(secret, true, false));
      case Confirm(_, _, _) =>
        if Granted(macs, required, login, op) {
          Confirmed(login.devices, Newest(login).(verified := true));
        }
      case _ =>
    }
  }

  lemma {:induction false} AlwaysConsistent(macs: Macs, required: bool, login: Login, ops: seq<Operation>)
    requires Consistent(login) && forall op :: op in ops ==> Draws(op)
    ensures Consistent(Final(macs, required, login, ops))
  {
    if ops != [] {
      AlwaysConsistent(macs, required, login, ops[..|ops| - 1]);
      assert Draws(ops[|ops| - 1]);
      StepConsistent(macs, required, Final(macs, required, login, ops[..|ops| - 1]), ops[|ops| - 1]);
    }
  }

  /** Under the `required` policy nothing a person does turns two-factor off or postpones it: the
      flags stay, and only an administrator's reset takes the verified device away. */
  lemma {:induction false} RequiredPolicyHolds(macs: Macs, login: Login, ops: seq<Operation>)
    requires login.mfaRequired && Consistent(login) && forall op :: op in ops ==> Draws(op) && op != Reset
    ensures var end := Final(macs, true, login, ops);
            && end.mfaRequired && end.remindAfter == login.remindAfter
            && (Verified(login.devices) != [] ==> Verified(end.devices) != [])
  {
    if ops != [] {
      var before, op := ops[..|ops| - 1], ops[|ops| - 1];
      RequiredPolicyHolds(macs, login, before);
      AlwaysConsistent(macs, true, login, before);
      var b := Final(macs, true, login, before);
      assert Draws(op);
      match op {
        case Start(secret) => Started(b.devices, Device(secret, true, false));
        case Confirm(_, _, _) =>
          if Granted(macs, true, b, op) {
            Confirmed(b.devices, Newest(b).(verified := true));
          }
        case _ =>
      }
    }
  }

  /** The recovery code a granted operation accepts: at sign-in, or to turn two-factor off. */
  function AcceptedBy(macs: Macs, required: bool, login: Login, op: Operation): Option<string> {
    if (op.VerifyLogin? || op.Disable?) && Granted(macs, required, login, op)
       && ProofOf(macs, login, op.code, op.at).Recovery?
    then Some(ProofOf(macs, login, op.code, op.at).text) else None
  }

  // ---------------------------------------------------------------- enrolments that overlap

  /** The devices that stay when a pending one is deleted for every secret in `seen`. */
  function Kept(devices: seq<Device>, seen: set<nat>): seq<Device> {
    if devices == [] then []
    else (if devices[0].verified || devices[0].secret !in seen then [devices[0]] else []) + Kept(devices[1..], seen)
  }

  /** The second half of an enrolment that deleted the pending devices it saw, in its own transaction. */
  function Enrolled(devices: seq<Device>, seen: set<nat>, secret: nat): seq<Device> {
    Kept(devices, seen) + [Device(secret, true, false)]
  }

  lemma {:induction false} KeptPending(devices: seq<Device>, seen: set<nat>)
    ensures Verified(Kept(devices, seen)) == Verified(devices)
    ensures Pending(Kept(devices, seen)) == [] <==> forall d :: d in Pending(devices) ==> d.secret in seen
  {
    if devices != [] {
      KeptPending(devices[1..], seen);
      var d, rest := devices[0], Kept(devices[1..], seen);
      assert ([d] + rest)[1..] == rest;
      if d.verified || d.secret !in seen {
        assert Kept(devices, seen) == [d] + rest;
      } else {
        assert Kept(devices, seen) == rest;
      }
      if !d.verified {
        assert Pending(devices) == [d] + Pending(devices[1..]);
        assert d in Pending(devices);
      }
    }
  }

  /** One pending device is left exactly when the enrolment saw every pending device there is by then; the
      verified ones stay in any case. */
  lemma OverlappingStart(devices: seq<Device>, seen: set<nat>, secret: nat)
    ensures |Pending(Enrolled(devices, seen, secret))| <= 1 <==> forall d :: d in Pending(devices) ==> d.secret in seen
    ensures Verified(Enrolled(devices, seen, secret)) == Verified(devices)
  {
    var kept, d := Kept(devices, seen), Device(secret, true, false);
    KeptPending(devices, seen);
    SelectAppend(kept, d, true);
    SelectAppend(kept, d, false);
  }

  /** Two enrolments that begin at once see no pending device, and leave two. */
  lemma TwoStartsLeaveTwo(one: nat, two: nat)
    ensures |Pending(Enrolled(Enrolled([], {}, one), {}, two))| == 2
  {
    var d, e := Device(one, true, false), Device(two, true, false);
    assert Enrolled([], {}, one) == [d];
    SelectAppend([], d, false);
    assert [] + [d] == [d];
    assert Kept([d], {}) == [d];
    SelectAppend([d], e, false);
  }

  /** How often recovery code `text` was accepted during a run. */
  function Successes(macs: Macs, required: bool, login: Login, ops: seq<Operation>, text: string): nat {
    if ops == [] then 0
    else
      var before, op := ops[..|ops| - 1], ops[|ops| - 1];
      Successes(macs, required, login, before, text)
      + if AcceptedBy(macs, required, Final(macs, required, login, before), op) == Some(text) then 1 else 0
  }

  /** The operations that replace or delete every recovery code. */
  predicate Replaces(op: Operation) {
    op.Confirm? || op.FreshCodes? || op.Disable? || op.Reset?
  }

  function DrawnBy(op: Operation): seq<string> {
    if op.Confirm? || op.FreshCodes? then op.drawn else []
  }

  /** Every recovery code that was issued during a run, in order. */
  function Drawn(macs: Macs, required: bool, login: Login, ops: seq<Operation>): seq<string> {
    if ops == [] then []
    else
      var before, op := ops[..|ops| - 1], ops[|ops| - 1];
      Drawn(macs, required, login, before)
      + if Granted(macs, required, Final(macs, required, login, before), op) then DrawnBy(op) else []
  }

  /** The codes an operation finds when it replaces or deletes them: what it accepts is spent before. */
  function Found(macs: Macs, required: bool, login: Login, op: Operation): seq<Code> {
    match AcceptedBy(macs, required, login, op)
    case Some(text) => Spend(login.codes, text)
    case None => login.codes
  }

  /** How many unused codes with this text were replaced or deleted during a run. */
  function Discarded(macs: Macs, required: bool, login: Login, ops: seq<Operation>, text: string): nat {
    if ops == [] then 0
    else
      var before, op := ops[..|ops| - 1], ops[|ops| - 1];
      var b := Final(macs, required, login, before);
      Discarded(macs, required, login, before, text)
      + if Replaces(op) && Granted(macs, required, b, op) then Unused(Found(macs, required, b, op), text) else 0
  }

  lemma FoundIsLess(macs: Macs, required: bool, login: Login, op: Operation, text: string)
    ensures Unused(Found(macs, required, login, op), text)
            + (if AcceptedBy(macs, required, login, op) == Some(text) then 1 else 0) == Unused(login.codes, text)
  {
    var accepted := AcceptedBy(macs, required, login, op);
    if accepted.Some? {
      SpendOne(login.codes, accepted.value, text);
    }
  }

  /** What is left after an operation: what it found, or what it issued in its place. */
  lemma CodesAfter(macs: Macs, required: bool, login: Login, op: Operation)
    ensures After(macs, required, login, op).codes ==
            if Replaces(op) && Granted(macs, required, login, op) then Issued(DrawnBy(op))
            else Found(macs, required, login, op)
  {
    assert Issued([]) == [];
  }

  /** Conservation, over every run: a recovery code that was there or was issued has been used, or
      discarded, or is still there. */
  lemma {:induction false} SuccessesUseCodesUp(macs: Macs, required: bool, login: Login, ops: seq<Operation>,
                                               text: string)
    ensures Successes(macs, required, login, ops, text) + Discarded(macs, required, login, ops, text)
            + Unused(Final(macs, required, login, ops).codes, text)
         == Unused(login.codes, text) + Times(Drawn(macs, required, login, ops), text)
  {
    if ops != [] {
      var before, op := ops[..|ops| - 1], ops[|ops| - 1];
      SuccessesUseCodesUp(macs, required, login, before, text);
      var b := Final(macs, required, login, before);
      FoundIsLess(macs, required, b, op, text);
      CodesAfter(macs, required, b, op);
      IssuedTimes(DrawnBy(op), text);
      TimesJoin(Drawn(macs, required, login, before), if Granted(macs, required, b, op) then DrawnBy(op) else [], text);
    }
  }

  /** In any run from a login without codes, if the codes drawn for it differ: each of them is accepted at
      most once, at sign-in or to turn two-factor off, and no other text ever is. */
  lemma EachCodeOnce(macs: Macs, required: bool, login: Login, ops: seq<Operation>, text: string)
    requires login.codes == [] && AllDifferent(Drawn(macs, required, login, ops))
    ensures Successes(macs, required, login, ops, text) <= if text in Drawn(macs, required, login, ops) then 1 else 0
  {
    SuccessesUseCodesUp(macs, required, login, ops, text);
    DifferentTimes(Drawn(macs, required, login, ops), text);
  }

  /** Once recovery codes are replaced or deleted, an old one is never accepted again, unless the same text
      is drawn anew. */
  lemma OldCodesStop(macs: Macs, required: bool, login: Login, replacing: Operation, ops: seq<Operation>, text: string)
    requires Replaces(replacing) && Granted(macs, required, login, replacing) && text !in DrawnBy(replacing)
    requires text !in Drawn(macs, required, After(macs, required, login, replacing), ops)
    ensures Successes(macs, required, After(macs, required, login, replacing), ops, text) == 0
  {
    var b := After(macs, required, login, replacing);
    CodesAfter(macs, required, login, replacing);
    IssuedTimes(DrawnBy(replacing), text);
    NotDrawn(DrawnBy(replacing), text);
    NotDrawn(Drawn(macs, required, b, ops), text);
    SuccessesUseCodesUp(macs, required, b, ops, text);
  }

  // ---------------------------------------------------------------- the service

  class TotpService {
    var devices: seq<Device>
    var codes: seq<Code>
    var mfaRequired: bool
    var remindAfter: Option<real>

    constructor ()
      ensures Model() == Login([], [], true, None)
    {
      devices, codes, mfaRequired, remindAfter := [], [], true, None;
    }

    ghost function Model(): Login
      reads this
    {
      Login(devices, codes, mfaRequired, remindAfter)
    }

    method StartEnrollment(macs: Macs, required: bool, secret: nat)
      modifies this`devices
      ensures Model() == old(After(macs, required, Model(), Start(secret)))
      ensures Pending(devices) == [Device(secret, true, false)] && Verified(devices) == Verified(old(devices))
      ensures forall code, at :: AnyOpens(macs, devices, code, at) ==> AnyOpens(macs, old(devices), code, at)
    {
      Started(devices, Device(secret, true, false));
      StartedOpensNothing(macs, devices, Device(secret, true, false));
      devices := Verified(devices) + [Device(secret, true, false)];
    }

    method ConfirmEnrollment(macs: Macs, required: bool, code: string, at: real, drawn: seq<string>) returns (ok: bool)
      requires at >= 0.0
      modifies this
      ensures ok == old(Granted(macs, required, Model(), Confirm(code, at, drawn)))
      ensures Model() == old(After(macs, required, Model(), Confirm(code, at, drawn)))
      ensures ok <==> old(Pending(devices) != [] && var newest := Pending(devices)[|Pending(devices)| - 1];
                          newest.readable && Verifies(MacOf(macs, newest.secret), code, at))
      ensures ok ==> mfaRequired && codes == Issued(drawn) && devices != [] && devices[|devices| - 1].verified
      ensures !ok ==> Model() == old(Model())
    {
      var pending := Pending(devices);
      if pending == [] {
        return false;
      }
      var device := pending[|pending| - 1];
      if !device.readable {
        return false;
      }
      ok := VerifyCode(MacOf(macs, device.secret), code, at);
      if ok {
        devices := pending[..|pending| - 1] + [device.(verified := true)];
        if !mfaRequired {
          mfaRequired := true;
        }
        codes := Issued(drawn);
      }
    }

    /** The device loop of `verify_login`. */
    method TryDevices(macs: Macs, text: string, at: real) returns (ok: bool)
      requires at >= 0.0
      ensures ok <==> AnyOpens(macs, devices, text, at)
    {
      var i := 0;
      while i < |devices|
        invariant i <= |devices|
        invariant forall k :: 0 <= k < i ==> !(devices[k].verified && Opens(macs, devices[k], text, at))
      {
        if devices[i].verified && devices[i].readable {
          var matches := VerifyCode(MacOf(macs, devices[i].secret), text, at);
          if matches {
            return true;
          }
        }
        i := i + 1;
      }
      ok := false;
    }

    /** `verify_login`: every verified device first, then the recovery codes. */
    method Verify(macs: Macs, required: bool, code: string, at: real) returns (proof: Proof)
      requires at >= 0.0
      modifies this`codes
      ensures proof == old(ProofOf(macs, Model(), code, at))
      ensures Model() == old(AfterProof(Model(), ProofOf(macs, Model(), code, at)))
      ensures proof != NoProof <==> old(Granted(macs, required, Model(), VerifyLogin(code, at)))
      ensures Model() == old(After(macs, required, Model(), VerifyLogin(code, at)))
    {
      var text := Compact(code);
      if text == "" {
        return NoProof;
      }
      var ok := TryDevices(macs, text, at);
      if ok {
        return Authenticator;
      }
      var found := ConsumeRecoveryCode(text);
      proof := if found then Recovery(text) else NoProof;
    }

    method ConsumeRecoveryCode(text: string) returns (found: bool)
      modifies this`codes
      ensures found <==> Code(text, false) in old(codes)
      ensures codes == if found then Spend(old(codes), text) else old(codes)
    {
      var i := 0;
      while i < |codes|
        invariant i <= |codes| && codes == old(codes)
        invariant Code(text, false) !in codes[..i]
      {
        if !codes[i].used && codes[i].text == text {
          SpendAt(codes, text, i);
          codes := codes[i := codes[i].(used := true)];
          return true;
        }
        i := i + 1;
      }
      found := false;
    }

    method DisableSecondFactor(macs: Macs, required: bool, code: string, at: real) returns (ok: bool)
      requires at >= 0.0
      modifies this
      ensures ok == old(Granted(macs, required, Model(), Disable(code, at)))
      ensures Model() == old(After(macs, required, Model(), Disable(code, at)))
      ensures ok <==> !required && old(ProofOf(macs, Model(), code, at)) != NoProof
      ensures ok ==> devices == [] && codes == [] && !mfaRequired
      ensures !ok ==> Model() == old(Model())
    {
      if required {
        return false;
      }
      var proof := Verify(macs, required, code, at);
      ok := proof != NoProof;
      if ok {
        ResetAll();
        mfaRequired := false;
      }
    }

    /** `reset` */
    method ResetAll()
      modifies this`devices, this`codes
      ensures devices == [] && codes == []
    {
      devices, codes := [], [];
    }

    method SnoozePrompt(macs: Macs, required: bool, until: real) returns (ok: bool)
      modifies this`remindAfter
      ensures ok == old(Granted(macs, required, Model(), Snooze(until)))
      ensures Model() == old(After(macs, required, Model(), Snooze(until)))
      ensures required ==> !ok && Model() == old(Model())
      ensures !required ==> ok && Model() == old(Model()).(remindAfter := Some(until))
    {
      ok := !required;
      if ok {
        remindAfter := Some(until);
      }
    }
  }
}
