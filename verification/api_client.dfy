/**
 The Python client's one request path: when it repeats a call, how long it waits, and what the
 caller gets; and the whole of `send` against the idempotency slot.
 */
module ApiClient {
  import opened Wrappers
  import Idempotency
  import SharedCache

  const MAX_RETRIES := 3

  /** What one attempt ends with. The `Retry-After` header may be missing, or not be a number. */
  datatype Wire =
    | Unreachable
    | Response(status: int, retryAfter: Option<Option<real>>, body: string)

  datatype Outcome = Value(body: string) | NoContent | Error(status: int)

  function Power(attempt: nat): (p: nat)
    ensures p >= 1
  {
    if attempt == 0 then 1 else 2 * Power(attempt - 1)
  }

  function Backoff(attempt: nat): real {
    if Power(attempt) < 20 then Power(attempt) as real else 20.0
  }

  /** `_retry_after`: the header, kept within 0..60; otherwise the default. */
  function RetryAfter(header: Option<Option<real>>, default: real): real {
    match header
    case Some(Some(x)) => if x < 0.0 then 0.0 else if x < 60.0 then x else 60.0
    case _ => default
  }

  predicate Retries(attempt: nat, wire: Wire, repeatable: bool, maxRetries: nat) {
    attempt <= maxRetries &&
    match wire
    case Unreachable => repeatable
    case Response(status, _, _) => status == 429 || (status in {502, 503, 504} && repeatable)
  }

  function Wait(attempt: nat, wire: Wire): real {
    if wire.Response? && wire.status == 429 then RetryAfter(wire.retryAfter, Power(attempt) as real)
    else Backoff(attempt)
  }

  /** Which answers are repeated while there are attempts left: a 429 always; no answer, and a gateway's error,
      when the server can recognise the repeat. */
  predicate IsRepeated(wire: Wire, repeatable: bool) {
    match wire
    case Unreachable => repeatable
    case Response(status, _, _) =>
      status == 429 || (repeatable && (status == 502 || status == 503 || status == 504))
  }

  /** How long the client waits after attempt `k`: as long as a 429 asks for, but at most a minute and not less than
      nothing; else 2, 4, 8, 16 seconds and so on, which is capped at 20 except after a 429. */
  predicate WaitsFor(k: nat, wire: Wire, wait: real) {
    if wire.Response? && wire.status == 429 then
      match wire.retryAfter
      case Some(Some(x)) => (x < 0.0 ==> wait == 0.0) && (0.0 <= x <= 60.0 ==> wait == x) && (x > 60.0 ==> wait == 60.0)
      case _ => IsBackoff(k, wait)
    else
      if k <= 4 then IsBackoff(k, wait) else wait == 20.0
  }

  /** `wait == 2^k` */
  predicate IsBackoff(k: nat, wait: real) {
    if k == 0 then wait == 1.0 else IsBackoff(k - 1, wait / 2.0)
  }

  lemma {:induction false} PowerIsBackoff(k: nat)
    ensures IsBackoff(k, Power(k) as real)
  {
    if k > 0 {
      PowerIsBackoff(k - 1);
      assert Power(k) as real / 2.0 == Power(k - 1) as real;
    }
  }

  lemma WaitIs(k: nat, wire: Wire)
    ensures WaitsFor(k, wire, Wait(k, wire))
  {
    PowerIsBackoff(k);
    assert Power(4) == 2 * Power(3) == 4 * Power(2) == 8 * Power(1) == 16;
    if k > 4 {
      assert Power(5) == 32;
      PowerGrows(5, k);
    } else {
      PowerGrows(k, 4);
    }
  }

  /** `Client.request`. `reply(k)` is how the k-th attempt ends. The caller gets what the last attempt
      ended with; every earlier attempt was one the client may repeat, and the last one was not. A call the
      server cannot recognise is repeated only after a 429, never after an attempt whose effect is unknown. */
  method Request(repeatable: bool, maxRetries: nat, reply: nat -> Wire)
    returns (result: Outcome, attempts: nat, waits: seq<real>)
    ensures 1 <= attempts <= maxRetries + 1
    ensures forall k :: 1 <= k < attempts ==> Retries(k, reply(k), repeatable, maxRetries)
    ensures !Retries(attempts, reply(attempts), repeatable, maxRetries)
    ensures reply(attempts).Unreachable? ==> result == Error(0)
    ensures reply(attempts).Response? && reply(attempts).status >= 400 ==> result == Error(reply(attempts).status)
    ensures reply(attempts).Response? && reply(attempts).status < 400 ==>
              result == if reply(attempts).status == 204 || reply(attempts).body == "" then NoContent
                        else Value(reply(attempts).body)
    ensures forall k :: 1 <= k < attempts ==> IsRepeated(reply(k), repeatable)
    ensures IsRepeated(reply(attempts), repeatable) ==> attempts == maxRetries + 1
    ensures |waits| == attempts - 1 && forall k :: 1 <= k < attempts ==> waits[k - 1] == Wait(k, reply(k))
    ensures forall k :: 1 <= k < attempts ==> WaitsFor(k, reply(k), waits[k - 1])
  {
    attempts, waits := 0, [];
    while true
      invariant attempts <= maxRetries && |waits| == attempts
      invariant forall k :: 1 <= k <= attempts ==> Retries(k, reply(k), repeatable, maxRetries)
      invariant forall k :: 1 <= k <= attempts ==> waits[k - 1] == Wait(k, reply(k))
      invariant forall k :: 1 <= k <= attempts ==> WaitsFor(k, reply(k), waits[k - 1])
      decreases maxRetries - attempts
    {
      attempts := attempts + 1;
      var response := reply(attempts);
      WaitIs(attempts, response);
      if response.Unreachable? {
        if repeatable && attempts <= maxRetries {
          waits := waits + [Backoff(attempts)];
          continue;
        }
        return Error(0), attempts, waits;
      }
      var status := response.status;
      if status == 429 && attempts <= maxRetries {
        waits := waits + [RetryAfter(response.retryAfter, Power(attempts) as real)];
        continue;
      }
      if status in {502, 503, 504} && repeatable && attempts <= maxRetries {
        waits := waits + [Backoff(attempts)];
        continue;
      }
      if status >= 400 {
        return Error(status), attempts, waits;
      }
      if status == 204 || response.body == "" {
        return NoContent, attempts, waits;
      }
      return Value(response.body), attempts, waits;
    }
  }

  // ---------------------------------------------------------------- how long it waits

  lemma {:induction false} PowerGrows(attempt: nat, more: nat)
    requires attempt <= more
    ensures Power(attempt) <= Power(more)
  {
    if attempt < more {
      PowerGrows(attempt, more - 1);
    }
  }

  lemma PowerBound(attempt: nat)
    ensures Power(attempt) > 60 <==> attempt >= 6
  {
    assert Power(5) == 2 * Power(4) && Power(4) == 2 * Power(3) && Power(3) == 2 * Power(2) == 4 * Power(1) == 8;
    assert Power(6) == 2 * Power(5);
    if attempt >= 6 {
      PowerGrows(6, attempt);
    } else {
      PowerGrows(attempt, 5);
    }
  }

  /** A wait is longer than a minute exactly from the sixth attempt on, after a 429 without a readable
      `Retry-After`: the default is not capped. */
  lemma WaitBound(attempt: nat, wire: Wire)
    ensures 0.0 <= Wait(attempt, wire)
    ensures Wait(attempt, wire) > 60.0 <==>
            && attempt >= 6 && wire.Response? && wire.status == 429
            && !(wire.retryAfter.Some? && wire.retryAfter.value.Some?)
  {
    PowerBound(attempt);
  }

  /** A client with six retries or more can wait 64 seconds. */
  lemma SixthWait(body: string)
    ensures Wait(6, Response(429, None, body)) == 64.0
  {
    assert Power(6) == 2 * Power(5) == 4 * Power(4) == 8 * Power(3) == 16 * Power(2) == 32 * Power(1) == 64;
  }

  /** The longest wait after an attempt. */
  function LongestWait(attempt: nat): real {
    if Power(attempt) > 60 then Power(attempt) as real else 60.0
  }

  // ---------------------------------------------------------------- one call of `send`

  /** When the attempts of one call begin and end: each takes at most `length`, and the next one begins
      after the wait. */
  ghost predicate Schedule(begins: seq<real>, ends: seq<real>, reply: nat -> Wire, length: real) {
    && |begins| == |ends| && |begins| >= 1
    && (forall k :: 0 <= k < |begins| ==> begins[k] <= ends[k] <= begins[k] + length)
    && (forall k: nat {:trigger reply(k)} :: 0 < k < |begins| ==> begins[k] == ends[k - 1] + Wait(k, reply(k)))
  }

  /** The longest time from the first attempt's beginning to the beginning of the one `k` later. */
  function Span(k: nat, length: real): real {
    if k == 0 then 0.0 else Span(k - 1, length) + length + LongestWait(k)
  }

  lemma {:induction false} ScheduleSpan(begins: seq<real>, ends: seq<real>, reply: nat -> Wire, length: real, k: nat)
    requires Schedule(begins, ends, reply, length) && k < |begins|
    ensures begins[0] <= begins[k] <= begins[0] + Span(k, length)
  {
    if k > 0 {
      ScheduleSpan(begins, ends, reply, length, k - 1);
      NextBegins(begins, ends, reply, length, k);
    }
  }

  /** With the client's defaults the last attempt begins at most three attempts and three minutes after the first. */
  lemma SpanIs(length: real)
    ensures Span(3, length) == 3.0 * length + 180.0
  {
    PowerBound(1);
    PowerBound(2);
    PowerBound(3);
    assert Span(3, length) == Span(2, length) + length + 60.0;
    assert Span(2, length) == Span(1, length) + length + 60.0 && Span(1, length) == Span(0, length) + length + 60.0;
  }

  /** Whether an attempt can have sent: a 429 is answered before anything is done, or after the service refused
      and the slot was given up. */
  predicate MaySend(wire: Wire) {
    !(wire.Response? && wire.status == 429)
  }

  /** The longest time from the beginning of attempt `from`, which may have sent, to the beginning of attempt `k`:
      after that one the client backs off, after later ones it may be told to wait. */
  function SentSpan(from: nat, k: nat, length: real): real {
    if k <= from then 0.0
    else SentSpan(from, k - 1, length) + length + if k == from + 1 then Backoff(k) else LongestWait(k)
  }

  lemma {:induction false} SentScheduleSpan(begins: seq<real>, ends: seq<real>, reply: nat -> Wire, length: real,
                                            from: nat, k: nat)
    requires Schedule(begins, ends, reply, length) && from <= k < |begins| && MaySend(reply(from + 1))
    ensures begins[from] <= begins[k] <= begins[from] + SentSpan(from, k, length)
  {
    if from < k {
      SentScheduleSpan(begins, ends, reply, length, from, k - 1);
      NextBegins(begins, ends, reply, length, k);
    }
  }

  lemma NextBegins(begins: seq<real>, ends: seq<real>, reply: nat -> Wire, length: real, k: nat)
    requires Schedule(begins, ends, reply, length) && 0 < k < |begins|
    ensures begins[k - 1] <= begins[k] <= begins[k - 1] + length + LongestWait(k)
    ensures MaySend(reply(k)) ==> begins[k] <= begins[k - 1] + length + Backoff(k)
  {
    WaitBound(k, reply(k));
  }

  /** The first attempt has the most time before it is repeated for the last time. */
  lemma {:induction false} FirstSpansMost(from: nat, k: nat, last: nat, length: real)
    requires k <= last && length >= 0.0
    ensures SentSpan(from, k, length) <= SentSpan(0, last, length)
  {
    if k < last {
      FirstSpansMost(from, k, last - 1, length);
    } else if from < k {
      FirstSpansMost(from, k - 1, k - 1, length);
      assert Backoff(k) <= LongestWait(k);
    } else {
      SpanIsPositive(last, length);
    }
  }

  lemma {:induction false} SpanIsPositive(k: nat, length: real)
    requires length >= 0.0
    ensures SentSpan(0, k, length) >= 0.0
  {
    if k > 0 {
      SpanIsPositive(k - 1, length);
    }
  }

  lemma DefaultSpan(length: real)
    ensures SentSpan(0, MAX_RETRIES, length) == 3.0 * length + 122.0
  {
    PowerBound(2);
    PowerBound(3);
    assert SentSpan(0, 3, length) == SentSpan(0, 2, length) + length + 60.0;
    assert SentSpan(0, 2, length) == SentSpan(0, 1, length) + length + 60.0;
    assert SentSpan(0, 1, length) == SentSpan(0, 0, length) + length + Backoff(1) && Power(1) == 2 * Power(0);
  }

  /** A claim the server made for one of the call's attempts that led to a send: while the attempt was under way,
      or up to `lag` after the client gave it up. */
  ghost predicate OfCall(claimed: real, begins: seq<real>, ends: seq<real>, reply: nat -> Wire, lag: real) {
    exists k :: 0 <= k < |begins| == |ends| && OfAttempt(claimed, begins, ends, reply, lag, k)
  }

  predicate OfAttempt(claimed: real, begins: seq<real>, ends: seq<real>, reply: nat -> Wire, lag: real, k: nat)
    requires k < |begins| == |ends|
  {
    MaySend(reply(k + 1)) && begins[k] <= claimed <= ends[k] + lag
  }

  ghost predicate AllOfCall(sends: seq<Idempotency.Send>, begins: seq<real>, ends: seq<real>, reply: nat -> Wire,
                            lag: real) {
    forall i :: 0 <= i < |sends| ==> OfCall(sends[i].claimed, begins, ends, reply, lag)
  }

  /** Two claims of one call are less far apart than the last claim can be from the first attempt. */
  lemma ClaimsAreClose(begins: seq<real>, ends: seq<real>, reply: nat -> Wire, length: real, lag: real,
                       a: real, b: real)
    requires Schedule(begins, ends, reply, length) && lag >= 0.0
    requires OfCall(a, begins, ends, reply, lag) && OfCall(b, begins, ends, reply, lag)
    ensures b <= a + SentSpan(0, |begins| - 1, length) + length + lag
  {
    var j :| 0 <= j < |begins| && OfAttempt(a, begins, ends, reply, lag, j);
    var k :| 0 <= k < |begins| && OfAttempt(b, begins, ends, reply, lag, k);
    assert begins[0] <= ends[0] <= begins[0] + length && begins[k] <= ends[k] <= begins[k] + length;
    FirstSpansMost(0, 0, |begins| - 1, length);
    if j <= k {
      SentScheduleSpan(begins, ends, reply, length, j, k);
      FirstSpansMost(j, k, |begins| - 1, length);
    } else {
      SentScheduleSpan(begins, ends, reply, length, k, j);
    }
  }

  /** End to end, for any number of attempts: however many answers are lost and whatever dies on the server,
      one call of `send` hands over at most one message, as long as the last attempt's claim cannot come
      after the first one's mark has expired. */
  lemma OneCallSendsOnce(states: seq<Idempotency.State>, actions: seq<Idempotency.Action>,
                         begins: seq<real>, ends: seq<real>, reply: nat -> Wire, length: real, lag: real)
    requires Idempotency.Run(states, actions) && Idempotency.CarefulRun(states, actions)
    requires Schedule(begins, ends, reply, length) && lag >= 0.0
    requires SentSpan(0, |begins| - 1, length) + length + lag < states[0].pending <= Idempotency.DONE_TTL
    requires AllOfCall(states[|actions|].sends, begins, ends, reply, lag)
    ensures |states[|actions|].sends| <= 1
  {
    var sends := states[|actions|].sends;
    if |sends| > 1 {
      assert OfCall(sends[0].claimed, begins, ends, reply, lag) && OfCall(sends[1].claimed, begins, ends, reply, lag);
      ClaimsAreClose(begins, ends, reply, length, lag, sends[0].claimed, sends[1].claimed);
      Idempotency.AtMostOnce(states, actions, 0, 1);
      Idempotency.FinishAfterClaim(states, actions, 0);
    }
  }

  /** ... and if the call ends with a 202, its receipt is that message's. */
  lemma AnswerIsTheReceipt(states: seq<Idempotency.State>, actions: seq<Idempotency.Action>,
                           begins: seq<real>, ends: seq<real>, reply: nat -> Wire, length: real, lag: real,
                           answer: Idempotency.Reply)
    requires Idempotency.Run(states, actions) && Idempotency.CarefulRun(states, actions)
    requires Schedule(begins, ends, reply, length) && lag >= 0.0
    requires SentSpan(0, |begins| - 1, length) + length + lag < states[0].pending <= Idempotency.DONE_TTL
    requires AllOfCall(states[|actions|].sends, begins, ends, reply, lag)
    requires answer in states[|actions|].replies && answer.answer.Accepted?
    ensures |states[|actions|].sends| == 1 && answer.answer.receipt == states[|actions|].sends[0].receipt
  {
    OneCallSendsOnce(states, actions, begins, ends, reply, length, lag);
    Idempotency.SameReceipt(states, actions, answer, answer);
  }

  /** With the client's defaults and the life of a message's mark: one message, when four attempts and the
      lag together stay below 178 seconds. */
  lemma DefaultCallSendsOnce(states: seq<Idempotency.State>, actions: seq<Idempotency.Action>,
                             begins: seq<real>, ends: seq<real>, reply: nat -> Wire, length: real, lag: real)
    requires Idempotency.Run(states, actions) && Idempotency.CarefulRun(states, actions)
    requires states[0].pending == 300.0
    requires Schedule(begins, ends, reply, length) && |begins| <= 4
    requires lag >= 0.0 && 4.0 * length + lag < 178.0
    requires AllOfCall(states[|actions|].sends, begins, ends, reply, lag)
    ensures |states[|actions|].sends| <= 1
  {
    assert begins[0] <= ends[0] <= begins[0] + length;
    DefaultSpan(length);
    FirstSpansMost(0, |begins| - 1, MAX_RETRIES, length);
    OneCallSendsOnce(states, actions, begins, ends, reply, length, lag);
  }

  // ---------------------------------------------------------------- past the bound

  function Slowest(length: real): (seq<real>, seq<real>) {
    ([0.0, length + 2.0, 2.0 * length + 62.0, 3.0 * length + 122.0],
     [length, 2.0 * length + 2.0, 3.0 * length + 62.0, 4.0 * length + 122.0])
  }

  /** The first answer is lost, the next two attempts are told to wait a minute, and the last answer is lost. */
  function SlowReply(k: nat): Wire {
    if k == 2 || k == 3 then Response(429, Some(Some(60.0)), "") else Unreachable
  }

  /** When the server claims for the fourth attempt: as soon as the first mark has expired. */
  function LateClaim(length: real): real {
    if 3.0 * length + 122.0 < 300.0 then 300.0 else 3.0 * length + 122.0
  }

  function LateSteps(length: real): seq<Idempotency.Action> {
    [Idempotency.Look(1, "m"), Idempotency.Mark(1), Idempotency.Accept(1, "p"), Idempotency.Die(1),
     Idempotency.Tick(LateClaim(length)), Idempotency.Look(2, "m"), Idempotency.Mark(2), Idempotency.Accept(2, "q")]
  }

  function Mail(claimed: real, receipt: string): Idempotency.Send {
    Idempotency.Send(claimed, receipt, "m", None)
  }

  function LateState(now: real, slot: Option<SharedCache.Entry<Idempotency.Slot>>,
                     requests: map<nat, Idempotency.Phase>, sends: seq<Idempotency.Send>): Idempotency.State {
    Idempotency.State(300.0, now, slot, requests, sends, [])
  }

  function Mark(at: real): Option<SharedCache.Entry<Idempotency.Slot>> {
    Some(SharedCache.Entry(Idempotency.Pending("m"), at + 300.0))
  }

  function LateStates(length: real): seq<Idempotency.State> {
    var c := LateClaim(length);
    [LateState(0.0, None, map[], []),
     LateState(0.0, None, map[1 := Idempotency.Looked("m")], []),
     LateState(0.0, Mark(0.0), map[1 := Idempotency.Marked("m", 0.0)], []),
     LateState(0.0, Mark(0.0), map[1 := Idempotency.Sent("m", 0.0, 0)], [Mail(0.0, "p")]),
     LateState(0.0, Mark(0.0), map[], [Mail(0.0, "p")]),
     LateState(c, Mark(0.0), map[], [Mail(0.0, "p")]),
     LateState(c, Mark(0.0), map[2 := Idempotency.Looked("m")], [Mail(0.0, "p")]),
     LateState(c, Mark(c), map[2 := Idempotency.Marked("m", c)], [Mail(0.0, "p")]),
     LateState(c, Mark(c), map[2 := Idempotency.Sent("m", c, 1)], [Mail(0.0, "p"), Mail(c, "q")])]
  }

  /** The bound is sharp: with attempts and a lag that reach it, one call can hand over two messages. The first
      attempt's request is accepted and dies before it records its answer, which is lost; two attempts are told
      to wait; the fourth is claimed when the first mark has expired. */
  lemma BoundIsSharp(length: real, lag: real, reply: nat -> Wire)
    requires length >= 0.0 && lag >= 0.0 && 4.0 * length + lag >= 178.0
    requires forall k :: reply(k) == SlowReply(k)
    ensures var (begins, ends) := Slowest(length);
            Schedule(begins, ends, reply, length) && |begins| == 4
            && (forall k :: 1 <= k <= 3 ==> Retries(k, reply(k), true, MAX_RETRIES))
            && AllOfCall(LateStates(length)[8].sends, begins, ends, reply, lag)
    ensures Idempotency.Run(LateStates(length), LateSteps(length))
    ensures Idempotency.CarefulRun(LateStates(length), LateSteps(length))
    ensures LateStates(length)[0].pending == 300.0 && |LateStates(length)[8].sends| == 2
  {
    var (begins, ends) := Slowest(length);
    var sends := LateStates(length)[8].sends;
    SlowSchedule(length, reply);
    assert OfAttempt(sends[0].claimed, begins, ends, reply, lag, 0);
    assert OfAttempt(sends[1].claimed, begins, ends, reply, lag, 3);
    LateRun(length);
  }

  lemma SlowSchedule(length: real, reply: nat -> Wire)
    requires length >= 0.0 && forall k :: reply(k) == SlowReply(k)
    ensures var (begins, ends) := Slowest(length); Schedule(begins, ends, reply, length)
  {
    var (begins, ends) := Slowest(length);
    assert Power(1) == 2 * Power(0) == 2;
    assert Wait(1, reply(1)) == 2.0 && Wait(2, reply(2)) == 60.0 && Wait(3, reply(3)) == 60.0;
  }

  lemma LateRun(length: real)
    requires length >= 0.0
    ensures Idempotency.Run(LateStates(length), LateSteps(length))
    ensures Idempotency.CarefulRun(LateStates(length), LateSteps(length))
  {
    var states, actions := LateStates(length), LateSteps(length);
    forall i | 0 <= i < |actions|
      ensures Idempotency.Enabled(states[i], actions[i]) && states[i + 1] == Idempotency.Apply(states[i], actions[i])
      ensures Idempotency.Careful(states[i], actions[i])
    {
      LateStep(length, i);
    }
  }

  lemma LateStep(length: real, i: nat)
    requires length >= 0.0 && i < 8
    ensures Idempotency.Enabled(LateStates(length)[i], LateSteps(length)[i])
    ensures LateStates(length)[i + 1] == Idempotency.Apply(LateStates(length)[i], LateSteps(length)[i])
    ensures Idempotency.Careful(LateStates(length)[i], LateSteps(length)[i])
  {
    if i == 3 {
      assert map[1 := Idempotency.Sent("m", 0.0, 0)] - {1} == map[];
    }
  }

  // ---------------------------------------------------------------- paging

  /** `Client.paged` over a list that does not change: `pages(offset)` is what the server returns from
      there on, between one item and 100 of them while any are left. */
  method Paged<T>(list: seq<T>, size: nat -> nat) returns (items: seq<T>)
    requires forall offset :: 1 <= size(offset) <= 100
    ensures items == list
  {
    items := [];
    var offset := 0;
    while true
      invariant offset == |items| <= |list| && items == list[..offset]
      decreases |list| - offset
    {
      var end := if offset + size(offset) < |list| then offset + size(offset) else |list|;
      var page := list[offset..end];
      items := items + page;
      offset := offset + |page|;
      if page == [] || offset >= |list| {
        return;
      }
    }
  }
}
