/**
 Sending at most once: the slot an API key and an `Idempotency-Key` name in the shared cache, and the
 requests that look at it, mark it, send, and record the answer. Requests interleave freely and may
 die between any two steps.
 */
module Idempotency {
  import opened Wrappers
  import opened SharedCache

  /** A message's mark lives 300 seconds and a campaign's an hour; what follows is for any lifetime. */
  const DONE_TTL := 86400.0

  type Fingerprint = string
  type Receipt = string

  datatype Slot = Pending(fingerprint: Fingerprint) | Done(fingerprint: Fingerprint, receipt: Receipt)

  /** What a request was answered. */
  datatype Answer = Accepted(receipt: Receipt) | InProgress | OtherMessage | Refused

  /** A request between two of its steps. `send` is the index of the send it made. */
  datatype Phase =
    | Looked(fingerprint: Fingerprint)
    | Marked(fingerprint: Fingerprint, at: real)
    | Sent(fingerprint: Fingerprint, at: real, send: nat)

  /** One accepted send: when its request marked the slot, and when it recorded the answer. */
  datatype Send = Send(claimed: real, receipt: Receipt, fingerprint: Fingerprint, finished: Option<real>)

  datatype Reply = Reply(id: nat, at: real, fingerprint: Fingerprint, answer: Answer)

  datatype State = State(pending: real, now: real, slot: Option<Entry<Slot>>, requests: map<nat, Phase>,
                         sends: seq<Send>, replies: seq<Reply>)

  datatype Action =
    | Tick(seconds: real)
    | Look(id: nat, fingerprint: Fingerprint)
    | Mark(id: nat)
    | Accept(id: nat, receipt: Receipt)
    | Refuse(id: nat)
    | Finish(id: nat)
    | Die(id: nat)

  predicate Enabled(s: State, a: Action) {
    match a
    case Tick(seconds) => seconds >= 0.0
    case Look(id, _) => id !in s.requests
    case Mark(id) => id in s.requests && s.requests[id].Looked?
    case Accept(id, _) => id in s.requests && s.requests[id].Marked?
    case Refuse(id) => id in s.requests && s.requests[id].Marked?
    case Finish(id) => id in s.requests && s.requests[id].Sent? && s.requests[id].send < |s.sends|
    case Die(id) => id in s.requests
  }

  function Answered(s: State, id: nat, fingerprint: Fingerprint, answer: Answer): State {
    s.(requests := s.requests - {id}, replies := s.replies + [Reply(id, s.now, fingerprint, answer)])
  }

  /** The code of `api_send_message` around the slot, one cache call or send at a time. */
  function Apply(s: State, a: Action): State
    requires Enabled(s, a)
  {
    match a
    case Tick(seconds) => s.(now := s.now + seconds)
    case Look(id, fingerprint) =>
      (match Get(s.slot, s.now)
       case None => s.(requests := s.requests[id := Looked(fingerprint)])
       case Some(previous) =>
         if previous.fingerprint != fingerprint then Answered(s, id, fingerprint, OtherMessage)
         else if previous.Pending? then Answered(s, id, fingerprint, InProgress)
         else Answered(s, id, fingerprint, Accepted(previous.receipt)))
    case Mark(id) =>
      var fingerprint := s.requests[id].fingerprint;
      s.(slot := Set(Pending(fingerprint), s.now, s.pending),
         requests := s.requests[id := Marked(fingerprint, s.now)])
    case Accept(id, receipt) =>
      var r := s.requests[id];
      s.(requests := s.requests[id := Sent(r.fingerprint, r.at, |s.sends|)],
         sends := s.sends + [Send(r.at, receipt, r.fingerprint, None)])
    case Refuse(id) =>
      Answered(s.(slot := None), id, s.requests[id].fingerprint, Refused)
    case Finish(id) =>
      var r := s.requests[id];
      var send := s.sends[r.send];
      Answered(s.(slot := Set(Done(r.fingerprint, send.receipt), s.now, DONE_TTL),
                  sends := s.sends[r.send := send.(finished := Some(s.now))]),
               id, r.fingerprint, Accepted(send.receipt))
    case Die(id) => s.(requests := s.requests - {id})
  }

  // ---------------------------------------------------------------- assumptions on a run

  /** The slot still shows the mark this request made, whether or not the mark has expired. */
  predicate Owns(s: State, id: nat) {
    && id in s.requests && !s.requests[id].Looked?
    && s.slot == Some(Entry(Pending(s.requests[id].fingerprint), s.requests[id].at + s.pending))
  }

  /** What two cache calls in a row cannot promise: the slot is still empty when it is marked, and still
      shows the request's own mark when the request goes on. */
  predicate Careful(s: State, a: Action) {
    match a
    case Mark(_) => Get(s.slot, s.now).None?
    case Accept(id, _) => Owns(s, id)
    case Refuse(id) => Owns(s, id)
    case Finish(id) => Owns(s, id)
    case _ => true
  }

  /** A request that has marked the slot is through before the mark expires. */
  predicate Timely(s: State, a: Action) {
    (a.Accept? || a.Refuse? || a.Finish?) && a.id in s.requests && !s.requests[a.id].Looked?
    ==> s.now < s.requests[a.id].at + s.pending
  }

  // ---------------------------------------------------------------- the invariant

  /** Until when a send keeps every other one away: 24 hours after its answer was recorded, or while
      its mark lives when that never happens. */
  function Until(pending: real, send: Send): real {
    match send.finished
    case Some(at) => at + DONE_TTL
    case None => send.claimed + pending
  }

  function SlotOf(send: Send): Slot {
    if send.finished.Some? then Done(send.fingerprint, send.receipt) else Pending(send.fingerprint)
  }

  /** While a send keeps others away, the slot says so. */
  ghost predicate Guarded(s: State) {
    forall i :: 0 <= i < |s.sends| && s.now < Until(s.pending, s.sends[i]) ==>
      i == |s.sends| - 1 && s.slot == Some(Entry(SlotOf(s.sends[i]), Until(s.pending, s.sends[i])))
  }

  /** A request whose mark has not expired. */
  predicate Live(s: State, id: nat) {
    id in s.requests && !s.requests[id].Looked? && s.now < s.requests[id].at + s.pending
  }

  /** Only one request's mark is in the slot, and every mark that has not expired is. */
  ghost predicate LiveOwnsSlot(s: State) {
    && (forall id :: Live(s, id) ==> Owns(s, id))
    && (forall id, other :: Owns(s, id) && Owns(s, other) ==> id == other)
    && (forall id :: Owns(s, id) ==> OwnerOk(s, s.requests[id]))
    && (forall id :: id in s.requests ==> RequestOk(s, s.requests[id]))
    && (forall id, other :: SameSend(s, id, other) ==> id == other)
  }

  predicate SameSend(s: State, id: nat, other: nat) {
    && id in s.requests && s.requests[id].Sent? && other in s.requests && s.requests[other].Sent?
    && s.requests[id].send == s.requests[other].send
  }

  /** Nothing was sent, or nothing else than this request's message, since the mark was made. */
  predicate OwnerOk(s: State, r: Phase) {
    match r
    case Looked(_) => true
    case Marked(_, at) => forall i :: 0 <= i < |s.sends| ==> Until(s.pending, s.sends[i]) <= at
    case Sent(_, at, send) =>
      send == |s.sends| - 1 && forall i :: 0 <= i < |s.sends| - 1 ==> Until(s.pending, s.sends[i]) <= at
  }

  /** A request knows its own send. */
  predicate RequestOk(s: State, r: Phase) {
    match r
    case Looked(_) => true
    case Marked(_, at) => at <= s.now
    case Sent(fingerprint, at, send) =>
      && at <= s.now && send < |s.sends|
      && s.sends[send].claimed == at && s.sends[send].finished == None && s.sends[send].fingerprint == fingerprint
  }

  /** At most one accepted send at a time: a later one is claimed only when the earlier one no longer
      keeps others away. */
  ghost predicate OneAtATime(pending: real, sends: seq<Send>) {
    forall i, j :: 0 <= i < j < |sends| ==> Until(pending, sends[i]) <= sends[j].claimed
  }

  /** Every 202 carries the receipt of the send that was in force when it was given. */
  predicate ReplyOk(sends: seq<Send>, reply: Reply) {
    reply.answer.Accepted? ==>
      exists i :: 0 <= i < |sends| && InForce(sends[i], reply)
  }

  predicate InForce(send: Send, reply: Reply) {
    && reply.answer == Accepted(send.receipt) && reply.fingerprint == send.fingerprint
    && send.finished.Some? && send.finished.value <= reply.at < send.finished.value + DONE_TTL
  }

  /** A slot that says done was written by the last send. */
  predicate DoneIsLast(s: State) {
    s.slot.Some? && s.slot.value.value.Done? ==>
      |s.sends| > 0 && s.sends[|s.sends| - 1].finished.Some?
      && s.slot == Some(Entry(SlotOf(s.sends[|s.sends| - 1]), Until(s.pending, s.sends[|s.sends| - 1])))
      && s.sends[|s.sends| - 1].finished.value <= s.now
  }

  ghost predicate Inv(s: State) {
    && s.pending > 0.0 && Guarded(s) && LiveOwnsSlot(s) && OneAtATime(s.pending, s.sends) && DoneIsLast(s)
    && (forall i :: 0 <= i < |s.sends| ==> s.sends[i].claimed <= s.now)
    && (forall r :: r in s.replies ==> ReplyOk(s.sends, r))
  }

  ghost predicate Start(s: State) {
    s.pending > 0.0 && s.slot == None && s.requests == map[] && s.sends == [] && s.replies == []
  }

  lemma RepliesStay(sends: seq<Send>, more: seq<Send>, replies: seq<Reply>)
    requires forall r :: r in replies ==> ReplyOk(sends, r)
    requires |sends| <= |more|
    requires forall i :: 0 <= i < |sends| ==> more[i] == sends[i] || sends[i].finished == None
    ensures forall r :: r in replies ==> ReplyOk(more, r)
  {
    forall r | r in replies && r.answer.Accepted? ensures ReplyOk(more, r) {
      assert ReplyOk(sends, r);
      var i :| 0 <= i < |sends| && InForce(sends[i], r);
      assert InForce(more[i], r);
    }
  }

  /** A step that marks and sends nothing keeps the marks in order. */
  lemma SameMarks(s: State, t: State)
    requires LiveOwnsSlot(s)
    requires t.slot == s.slot && t.sends == s.sends && t.pending == s.pending && t.now >= s.now
    requires forall id :: id in t.requests && !t.requests[id].Looked? ==>
               id in s.requests && s.requests[id] == t.requests[id]
    ensures LiveOwnsSlot(t)
  {
    forall id | Owns(t, id) ensures Owns(s, id) {
    }
    forall id | Live(t, id) ensures Owns(t, id) {
      assert Live(s, id) && Owns(s, id);
    }
    forall id | id in t.requests ensures RequestOk(t, t.requests[id]) {
      assert id in s.requests ==> RequestOk(s, s.requests[id]);
    }
    forall id, other | SameSend(t, id, other) ensures id == other {
      assert SameSend(s, id, other);
    }
  }

  lemma LookKeeps(s: State, a: Action)
    requires Inv(s) && a.Look? && Enabled(s, a)
    ensures Inv(Apply(s, a))
  {
    if Get(s.slot, s.now) != None {
      AnswerIsTrue(s, a);
    }
    SameMarks(s, Apply(s, a));
  }

  lemma AnswerIsTrue(s: State, a: Action)
    requires DoneIsLast(s) && a.Look? && Enabled(s, a) && Get(s.slot, s.now) != None
    requires forall r :: r in s.replies ==> ReplyOk(s.sends, r)
    ensures forall r :: r in Apply(s, a).replies ==> ReplyOk(s.sends, r)
  {
    var reply := Apply(s, a).replies[|s.replies|];
    if reply.answer.Accepted? {
      assert InForce(s.sends[|s.sends| - 1], reply);
    }
  }

  /** No mark that has not expired, and no send that keeps others away. */
  ghost predicate Free(s: State) {
    && (forall id :: !Live(s, id))
    && (forall i :: 0 <= i < |s.sends| ==> Until(s.pending, s.sends[i]) <= s.now)
  }

  lemma EmptySlotIsFree(s: State)
    requires Inv(s) && Get(s.slot, s.now).None?
    ensures Free(s)
  {
    forall id ensures !Live(s, id) {
      assert Live(s, id) ==> Owns(s, id);
    }
  }

  /** When a step breaks nothing. A mark needs a slot that nobody needs; a request that goes on needs that
      nobody else came since it marked the slot. */
  ghost predicate Harmless(s: State, a: Action)
    requires Enabled(s, a)
  {
    match a
    case Mark(_) => Free(s)
    case Accept(id, _) => NoneSince(s, id)
    case Refuse(id) => NothingElse(s, id)
    case Finish(id) => OnlyLive(s, id) && s.requests[id].send == |s.sends| - 1
    case _ => true
  }

  ghost predicate OnlyLive(s: State, id: nat) {
    forall other :: Live(s, other) ==> other == id
  }

  /** No send keeps others away, and no other request's mark is in force. */
  ghost predicate NothingElse(s: State, id: nat) {
    OnlyLive(s, id) && forall i :: 0 <= i < |s.sends| ==> Until(s.pending, s.sends[i]) <= s.now
  }

  /** Every send was over when this request marked the slot, the slot says nothing else is done, and a mark
      that replaced this one is from after its expiry. */
  ghost predicate NoneSince(s: State, id: nat)
    requires id in s.requests && s.requests[id].Marked?
  {
    var at := s.requests[id].at;
    && (forall i :: 0 <= i < |s.sends| ==> Until(s.pending, s.sends[i]) <= at)
    && (s.slot.Some? ==> s.slot.value.value.Pending?)
    && (forall other :: Owns(s, other) && other != id ==>
          s.requests[other].Marked? && at + s.pending <= s.requests[other].at)
  }

  lemma FreeMarkKeeps(s: State, a: Action)
    requires Inv(s) && a.Mark? && Enabled(s, a) && Free(s)
    ensures Inv(Apply(s, a))
  {
    var t := Apply(s, a);
    forall id | id != a.id ensures !Live(t, id) && !Owns(t, id) {
      assert !Live(s, id) && (id in s.requests ==> RequestOk(s, s.requests[id]));
    }
    forall id | id in t.requests ensures RequestOk(t, t.requests[id]) {
      assert RequestOk(s, s.requests[id]);
    }
    forall id, other | SameSend(t, id, other) ensures id == other {
      assert SameSend(s, id, other);
    }
  }

  lemma MarkBreaks(s: State, a: Action)
    requires Inv(s) && a.Mark? && Enabled(s, a) && !Free(s)
    ensures !Inv(Apply(s, a))
  {
    var t := Apply(s, a);
    assert Owns(t, a.id);
    if i :| 0 <= i < |s.sends| && Until(s.pending, s.sends[i]) > s.now {
      assert !OwnerOk(t, t.requests[a.id]);
    } else {
      var id :| Live(s, id);
      assert id != a.id && Live(t, id);
    }
  }

  lemma AcceptKeeps(s: State, a: Action)
    requires Inv(s) && a.Accept? && Enabled(s, a) && NoneSince(s, a.id)
    ensures Inv(Apply(s, a))
  {
    var t := Apply(s, a);
    assert RequestOk(s, s.requests[a.id]) && (Live(s, a.id) ==> Owns(s, a.id));
    RepliesStay(s.sends, t.sends, s.replies);
    AcceptedMarks(s, a);
  }

  lemma AcceptedMarks(s: State, a: Action)
    requires LiveOwnsSlot(s) && a.Accept? && Enabled(s, a) && NoneSince(s, a.id)
    ensures LiveOwnsSlot(Apply(s, a))
  {
    var t := Apply(s, a);
    forall id ensures Owns(t, id) <==> Owns(s, id) {
    }
    forall id | Live(t, id) ensures Owns(t, id) {
      assert Live(s, id);
    }
    forall id | id in s.requests ensures RequestOk(t, t.requests[id]) && (Owns(t, id) ==> OwnerOk(t, t.requests[id])) {
      assert RequestOk(s, s.requests[id]);
    }
    forall id, other | SameSend(t, id, other) ensures id == other {
      assert RequestOk(s, s.requests[id]) && RequestOk(s, s.requests[other]);
      assert id != a.id && other != a.id ==> SameSend(s, id, other);
    }
  }

  lemma AcceptBreaks(s: State, a: Action)
    requires Inv(s) && a.Accept? && Enabled(s, a) && !NoneSince(s, a.id)
    ensures !Inv(Apply(s, a))
  {
    var t, last := Apply(s, a), |s.sends|;
    if i :| 0 <= i < |s.sends| && Until(s.pending, s.sends[i]) > s.requests[a.id].at {
      assert t.sends[i] == s.sends[i] && t.sends[last].claimed == s.requests[a.id].at;
    } else if !(s.slot.Some? ==> s.slot.value.value.Pending?) {
      assert !DoneIsLast(t);
    } else {
      var other :| Owns(s, other) && other != a.id
                   && !(s.requests[other].Marked? && s.requests[a.id].at + s.pending <= s.requests[other].at);
      assert Owns(t, other) && Until(s.pending, t.sends[last]) == s.requests[a.id].at + s.pending;
      assert RequestOk(s, s.requests[other]);
      assert !OwnerOk(t, t.requests[other]);
    }
  }

  lemma NothingElseRefuseKeeps(s: State, a: Action)
    requires Inv(s) && a.Refuse? && Enabled(s, a) && NothingElse(s, a.id)
    ensures Inv(Apply(s, a))
  {
    var t := Apply(s, a);
    forall id ensures !Live(t, id) && !Owns(t, id) {
      assert Live(t, id) ==> Live(s, id);
    }
    forall id | id in t.requests ensures RequestOk(t, t.requests[id]) {
      assert RequestOk(s, s.requests[id]);
    }
    forall id, other | SameSend(t, id, other) ensures id == other {
      assert SameSend(s, id, other);
    }
  }

  lemma RefuseBreaks(s: State, a: Action)
    requires Inv(s) && a.Refuse? && Enabled(s, a) && !NothingElse(s, a.id)
    ensures !Inv(Apply(s, a))
  {
    var t := Apply(s, a);
    if OnlyLive(s, a.id) {
      assert !Guarded(t);
    } else {
      var id :| Live(s, id) && id != a.id;
      assert Live(t, id) && !Owns(t, id);
    }
  }

  lemma LastFinishKeeps(s: State, a: Action)
    requires Inv(s) && a.Finish? && Enabled(s, a) && Harmless(s, a)
    ensures Inv(Apply(s, a))
  {
    var t := Apply(s, a);
    assert RequestOk(s, s.requests[a.id]);
    RepliesStay(s.sends, t.sends, s.replies);
    assert InForce(t.sends[|s.sends| - 1], t.replies[|s.replies|]);
    FinishedMarks(s, a);
  }

  lemma FinishedMarks(s: State, a: Action)
    requires LiveOwnsSlot(s) && a.Finish? && Enabled(s, a) && OnlyLive(s, a.id)
    ensures LiveOwnsSlot(Apply(s, a))
  {
    var t := Apply(s, a);
    forall id ensures !Live(t, id) && !Owns(t, id) {
      assert Live(t, id) ==> Live(s, id);
    }
    forall id | id in t.requests ensures RequestOk(t, t.requests[id]) {
      assert RequestOk(s, s.requests[id]) && !SameSend(s, id, a.id);
    }
    forall id, other | SameSend(t, id, other) ensures id == other {
      assert SameSend(s, id, other);
    }
  }

  lemma FinishBreaks(s: State, a: Action)
    requires Inv(s) && a.Finish? && Enabled(s, a) && !Harmless(s, a)
    ensures !Inv(Apply(s, a))
  {
    var t := Apply(s, a);
    if OnlyLive(s, a.id) {
      var i := s.requests[a.id].send;
      assert t.now < Until(t.pending, t.sends[i]) && i != |t.sends| - 1;
    } else {
      var id :| Live(s, id) && id != a.id;
      assert Live(t, id) && !Owns(t, id);
    }
  }

  /** Every step keeps the invariant exactly when it is harmless. */
  lemma StepKeeps(s: State, a: Action)
    requires Inv(s) && Enabled(s, a)
    ensures Inv(Apply(s, a)) <==> Harmless(s, a)
  {
    match a {
      case Tick(_) => SameMarks(s, Apply(s, a));
      case Look(_, _) => LookKeeps(s, a);
      case Mark(_) =>
        if Free(s) { FreeMarkKeeps(s, a); } else { MarkBreaks(s, a); }
      case Accept(id, _) =>
        if NoneSince(s, id) { AcceptKeeps(s, a); } else { AcceptBreaks(s, a); }
      case Refuse(id) =>
        if NothingElse(s, id) { NothingElseRefuseKeeps(s, a); } else { RefuseBreaks(s, a); }
      case Finish(_) =>
        if Harmless(s, a) { LastFinishKeeps(s, a); } else { FinishBreaks(s, a); }
      case Die(_) => SameMarks(s, Apply(s, a));
    }
  }

  /** What the slot shows is enough to know that a step is harmless. */
  lemma CarefulIsHarmless(s: State, a: Action)
    requires Inv(s) && Enabled(s, a) && Careful(s, a)
    ensures Harmless(s, a)
  {
    match a {
      case Mark(_) => EmptySlotIsFree(s);
      case Accept(id, _) => OwnerIsAlone(s, id);
      case Refuse(id) => OwnerIsAlone(s, id);
      case Finish(id) => OwnerIsAlone(s, id);
      case _ =>
    }
  }

  lemma OwnerIsAlone(s: State, id: nat)
    requires Inv(s) && Owns(s, id)
    ensures OnlyLive(s, id) && OwnerOk(s, s.requests[id]) && RequestOk(s, s.requests[id])
  {
    forall other | Live(s, other) ensures other == id {
      assert Owns(s, other);
    }
  }

  // ---------------------------------------------------------------- runs

  ghost predicate Run(states: seq<State>, actions: seq<Action>) {
    && |states| == |actions| + 1 && Start(states[0])
    && forall i :: 0 <= i < |actions| ==>
         Enabled(states[i], actions[i]) && states[i + 1] == Apply(states[i], actions[i])
  }

  ghost predicate CarefulRun(states: seq<State>, actions: seq<Action>)
    requires |states| == |actions| + 1
  {
    forall i :: 0 <= i < |actions| ==> Careful(states[i], actions[i])
  }

  lemma {:induction false} RunKeeps(states: seq<State>, actions: seq<Action>)
    requires Run(states, actions) && CarefulRun(states, actions)
    ensures Inv(states[|actions|]) && states[|actions|].pending == states[0].pending
  {
    if actions != [] {
      var k := |actions| - 1;
      assert Run(states[..k + 1], actions[..k]) && CarefulRun(states[..k + 1], actions[..k]);
      RunKeeps(states[..k + 1], actions[..k]);
      assert Enabled(states[k], actions[k]) && Careful(states[k], actions[k]);
      CarefulIsHarmless(states[k], actions[k]);
      StepKeeps(states[k], actions[k]);
    }
  }

  /** In particular a run is careful when the slot is empty at every mark and every send is faster than the
      mark expires. */
  lemma {:induction false} TimelyRunIsCareful(states: seq<State>, actions: seq<Action>)
    requires Run(states, actions)
    requires forall i :: 0 <= i < |actions| ==>
               Timely(states[i], actions[i]) && (actions[i].Mark? ==> Get(states[i].slot, states[i].now).None?)
    ensures CarefulRun(states, actions)
  {
    if actions != [] {
      var k := |actions| - 1;
      assert Run(states[..k + 1], actions[..k]);
      TimelyRunIsCareful(states[..k + 1], actions[..k]);
      RunKeeps(states[..k + 1], actions[..k]);
      assert Enabled(states[k], actions[k]) && Timely(states[k], actions[k]);
      TimelyIsCareful(states[k], actions[k]);
      forall i | 0 <= i < |actions| ensures Careful(states[i], actions[i]) {
        assert i < k ==> Careful(states[..k + 1][i], actions[..k][i]);
      }
    }
  }

  lemma TimelyIsCareful(s: State, a: Action)
    requires Inv(s) && Enabled(s, a) && Timely(s, a) && (a.Mark? ==> Get(s.slot, s.now).None?)
    ensures Careful(s, a)
  {
    if a.Accept? || a.Refuse? || a.Finish? {
      assert Live(s, a.id);
    }
  }

  /** At most once. In every run, whatever is lost, retried or dies: a second send is claimed only 24
      hours after the first one's answer was recorded (or, when its request died before recording
      it, one pending life after it was claimed). */
  lemma AtMostOnce(states: seq<State>, actions: seq<Action>, i: nat, j: nat)
    requires Run(states, actions) && CarefulRun(states, actions)
    requires i < j < |states[|actions|].sends|
    ensures var sends := states[|actions|].sends;
            sends[j].claimed >= match sends[i].finished
                                case Some(at) => at + 86400.0
                                case None => sends[i].claimed + states[0].pending
  {
    RunKeeps(states, actions);
  }

  /** Every 202 tells the truth: it carries the receipt of a finished send of the same message, and
      any two 202 answers given less than 24 hours after that send finished carry the same one. */
  lemma SameReceipt(states: seq<State>, actions: seq<Action>, p: Reply, q: Reply)
    requires Run(states, actions) && CarefulRun(states, actions)
    requires p in states[|actions|].replies && q in states[|actions|].replies
    requires p.answer.Accepted? && q.answer.Accepted? && p.at <= q.at
    ensures exists i :: 0 <= i < |states[|actions|].sends| && InForce(states[|actions|].sends[i], p)
                     && states[|actions|].sends[i].finished.value <= p.at
                     && (q.at < states[|actions|].sends[i].finished.value + 86400.0 ==> q.answer == p.answer)
  {
    RunKeeps(states, actions);
    var sends := states[|actions|].sends;
    assert ReplyOk(sends, p) && ReplyOk(sends, q);
    var i :| 0 <= i < |sends| && InForce(sends[i], p);
    var j :| 0 <= j < |sends| && InForce(sends[j], q);
    FinishAfterClaim(states, actions, i);
    FinishAfterClaim(states, actions, j);
    assert InForce(sends[i], p) && (q.at < sends[i].finished.value + DONE_TTL ==> q.answer == p.answer);
  }

  /** A send is finished no earlier than it was claimed. */
  lemma {:induction false} FinishAfterClaim(states: seq<State>, actions: seq<Action>, i: nat)
    requires Run(states, actions)
    requires i < |states[|actions|].sends|
    ensures var send := states[|actions|].sends[i]; send.finished.Some? ==> send.claimed <= send.finished.value
  {
    FinishesAfterClaims(states, actions);
  }

  ghost predicate InOrder(s: State) {
    && (forall i :: 0 <= i < |s.sends| ==> s.sends[i].claimed <= s.now)
    && (forall i :: 0 <= i < |s.sends| && s.sends[i].finished.Some? ==> s.sends[i].claimed <= s.sends[i].finished.value)
    && (forall id :: id in s.requests && !s.requests[id].Looked? ==> s.requests[id].at <= s.now)
  }

  lemma {:induction false} FinishesAfterClaims(states: seq<State>, actions: seq<Action>)
    requires Run(states, actions)
    ensures InOrder(states[|actions|])
  {
    if actions != [] {
      var k := |actions| - 1;
      assert Run(states[..k + 1], actions[..k]);
      FinishesAfterClaims(states[..k + 1], actions[..k]);
      assert Enabled(states[k], actions[k]) && states[k + 1] == Apply(states[k], actions[k]);
    }
  }

  // ---------------------------------------------------------------- without the assumptions

  function Play(s: State, actions: seq<Action>): Option<State>
    decreases |actions|
  {
    if actions == [] then Some(s)
    else if Enabled(s, actions[0]) then Play(Apply(s, actions[0]), actions[1..])
    else None
  }

  function Fresh(pending: real): State {
    State(pending, 0.0, None, map[], [], [])
  }

  /** Two requests that look before either marks both send, however long marks live: the guarantee rests on
      the slot being empty still when it is marked. */
  lemma InterleavedClaimsSendTwice(pending: real)
    requires pending > 0.0
    ensures var steps := [Look(1, "m"), Look(2, "m"), Mark(1), Mark(2), Accept(1, "p"), Accept(2, "q")];
            var end := Play(Fresh(pending), steps);
            end.Some? && |end.value.sends| == 2 && !OneAtATime(pending, end.value.sends)
  {
    var s0 := Fresh(pending);
    var s1 := Apply(s0, Look(1, "m"));
    var s2 := Apply(s1, Look(2, "m"));
    var s3 := Apply(s2, Mark(1));
    var s4 := Apply(s3, Mark(2));
    var s5 := Apply(s4, Accept(1, "p"));
    var s6 := Apply(s5, Accept(2, "q"));
    assert Until(pending, s6.sends[0]) > s6.sends[1].claimed;
    assert Play(s6, []) == Some(s6);
    assert Play(s5, [Accept(2, "q")]) == Some(s6);
    assert Play(s4, [Accept(1, "p"), Accept(2, "q")]) == Some(s6);
    assert Play(s3, [Mark(2), Accept(1, "p"), Accept(2, "q")]) == Some(s6);
    assert Play(s2, [Mark(1), Mark(2), Accept(1, "p"), Accept(2, "q")]) == Some(s6);
    assert Play(s1, [Look(2, "m"), Mark(1), Mark(2), Accept(1, "p"), Accept(2, "q")]) == Some(s6);
  }

  /** A send that takes longer than the mark lives lets a retry send as well, however long that is. */
  lemma SlowSendSendsTwice(pending: real)
    requires pending > 0.0
    ensures var steps := [Look(1, "m"), Mark(1), Tick(pending), Look(2, "m"), Mark(2), Accept(2, "q"), Accept(1, "p")];
            var end := Play(Fresh(pending), steps);
            end.Some? && |end.value.sends| == 2 && !OneAtATime(pending, end.value.sends)
  {
    var s0 := Fresh(pending);
    var s1 := Apply(s0, Look(1, "m"));
    var s2 := Apply(s1, Mark(1));
    var s3 := Apply(s2, Tick(pending));
    var s4 := Apply(s3, Look(2, "m"));
    var s5 := Apply(s4, Mark(2));
    var s6 := Apply(s5, Accept(2, "q"));
    var s7 := Apply(s6, Accept(1, "p"));
    assert Until(pending, s7.sends[0]) > s7.sends[1].claimed;
    assert Play(s7, []) == Some(s7);
    assert Play(s6, [Accept(1, "p")]) == Some(s7);
    assert Play(s5, [Accept(2, "q"), Accept(1, "p")]) == Some(s7);
    assert Play(s4, [Mark(2), Accept(2, "q"), Accept(1, "p")]) == Some(s7);
    assert Play(s3, [Look(2, "m"), Mark(2), Accept(2, "q"), Accept(1, "p")]) == Some(s7);
    assert Play(s2, [Tick(pending), Look(2, "m"), Mark(2), Accept(2, "q"), Accept(1, "p")]) == Some(s7);
    assert Play(s1, [Mark(1), Tick(pending), Look(2, "m"), Mark(2), Accept(2, "q"), Accept(1, "p")]) == Some(s7);
  }

  // ---------------------------------------------------------------- the handler

  /** The steps of one request that nothing disturbs; `outcome` is what the message service says. */
  function Steps(s: State, fingerprint: Fingerprint, seconds: real, outcome: Option<Receipt>): seq<Action> {
    if Get(s.slot, s.now).Some? then [Look(0, fingerprint)]
    else if outcome.Some? then [Look(0, fingerprint), Mark(0), Tick(seconds), Accept(0, outcome.value), Finish(0)]
    else [Look(0, fingerprint), Mark(0), Tick(seconds), Refuse(0)]
  }

  class MessageApi {
    var slot: Option<Entry<Slot>>
    var sends: seq<Send>
    const pending: real

    constructor (pending: real)
      ensures this.pending == pending && slot == None && sends == []
    {
      this.pending, slot, sends := pending, None, [];
    }

    ghost function Model(now: real): State
      reads this
    {
      State(pending, now, slot, map[], sends, [])
    }

    /** The handler's body, run on its own from `now` on; sending takes `seconds`. */
    method Handle(now: real, fingerprint: Fingerprint, seconds: real, outcome: Option<Receipt>) returns (answer: Answer)
      requires seconds >= 0.0
      modifies this
      ensures var end := Play(old(Model(now)), Steps(old(Model(now)), fingerprint, seconds, outcome));
              && end.Some? && end.value.requests == map[]
              && slot == end.value.slot && sends == end.value.sends
              && end.value.replies == [Reply(0, end.value.now, fingerprint, answer)]
    {
      ghost var s := Model(now);
      ghost var steps := Steps(s, fingerprint, seconds, outcome);
      Undisturbed(s, fingerprint, seconds, outcome);
      var previous := Get(slot, now);
      if previous.Some? {
        if previous.value.fingerprint != fingerprint { return OtherMessage; }
        if previous.value.Pending? { return InProgress; }
        return Accepted(previous.value.receipt);
      }
      slot := Set(Pending(fingerprint), now, pending);
      if outcome.None? {
        slot := None;
        return Refused;
      }
      sends := sends + [Send(now, outcome.value, fingerprint, None)];
      slot := Set(Done(fingerprint, outcome.value), now + seconds, DONE_TTL);
      sends := sends[|sends| - 1 := sends[|sends| - 1].(finished := Some(now + seconds))];
      answer := Accepted(outcome.value);
    }
  }

  lemma Undisturbed(s: State, fingerprint: Fingerprint, seconds: real, outcome: Option<Receipt>)
    requires s.requests == map[] && s.replies == [] && seconds >= 0.0
    ensures var end := Play(s, Steps(s, fingerprint, seconds, outcome));
            && end.Some? && end.value.requests == map[]
            && (match Get(s.slot, s.now)
                case Some(previous) =>
                  end.value == s.(replies := [Reply(0, s.now, fingerprint,
                    if previous.fingerprint != fingerprint then OtherMessage
                    else if previous.Pending? then InProgress else Accepted(previous.receipt))])
                case None =>
                  var over := s.now + seconds;
                  end.value == match outcome
                    case Some(receipt) =>
                      s.(now := over, slot := Set(Done(fingerprint, receipt), over, DONE_TTL),
                         sends := s.sends + [Send(s.now, receipt, fingerprint, Some(over))],
                         replies := [Reply(0, over, fingerprint, Accepted(receipt))])
                    case None =>
                      s.(now := over, slot := None, replies := [Reply(0, over, fingerprint, Refused)]))
  {
    var s1 := Apply(s, Look(0, fingerprint));
    if Get(s.slot, s.now).Some? {
      assert s1.requests == map[];
      assert Play(s1, []) == Some(s1);
    } else {
      var s2 := Apply(s1, Mark(0));
      var s3 := Apply(s2, Tick(seconds));
      if outcome.Some? {
        var s4 := Apply(s3, Accept(0, outcome.value));
        var s5 := Apply(s4, Finish(0));
        assert s5.requests == map[];
        assert s5.sends == s.sends + [Send(s.now, outcome.value, fingerprint, Some(s.now + seconds))];
        assert Play(s5, []) == Some(s5);
        assert Play(s4, [Finish(0)]) == Some(s5);
        assert Play(s3, [Accept(0, outcome.value), Finish(0)]) == Some(s5);
        assert Play(s2, [Tick(seconds), Accept(0, outcome.value), Finish(0)]) == Some(s5);
        assert Play(s1, [Mark(0), Tick(seconds), Accept(0, outcome.value), Finish(0)]) == Some(s5);
      } else {
        var s4 := Apply(s3, Refuse(0));
        assert s4.requests == map[];
        assert Play(s4, []) == Some(s4);
        assert Play(s3, [Refuse(0)]) == Some(s4);
        assert Play(s2, [Tick(seconds), Refuse(0)]) == Some(s4);
        assert Play(s1, [Mark(0), Tick(seconds), Refuse(0)]) == Some(s4);
      }
    }
  }
}
