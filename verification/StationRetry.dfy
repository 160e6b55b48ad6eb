/** How often one authentication or association request is sent again. The driver's
    retry counter is cleared by every authentication frame of the joined BSS, so the
    count per request is kept beside it. */
module StationRetry {

  const MAX_RETRY := 3

  datatype State = NoState | Authing | Authed | Associng | Assoced | Completed

  /** `resends` and `clears` count since the request: commands sent again, and
      frames that cleared the retry counter without confirming SAE. */
  datatype Attempt = Attempt(state: State, confirmed: bool, retry: nat, resends: nat, clears: nat)

  /** What moves an attempt. A turn of the worker sees which timeouts have passed and,
      when it resends, whether the command was accepted. Frames are the joined BSS's. */
  datatype Event =
    | Request(next: State)
    | Turn(connectTimeout: bool, stepTimeout: bool, accepted: bool)
    | AuthFrame(success: bool, confirm: bool)
    | AssocFrame(success: bool)
    | Authorize
    | GiveUp

  function Fresh(next: State, confirmed: bool): Attempt {
    Attempt(next, confirmed, 0, 0, 0)
  }

  function GivenUp(a: Attempt): Attempt {
    a.(state := NoState, confirmed := false)
  }

  /** The counters after a turn, before it is decided whether to give up. */
  function Counted(a: Attempt, resendIn: State, stepTimeout: bool): Attempt {
    var retry := a.retry + if stepTimeout then 1 else 0;
    var again := stepTimeout && retry < MAX_RETRY;
    a.(retry := retry, resends := a.resends + (if again then 1 else 0), state := if again then resendIn else a.state)
  }

  /** The turn gives up: the attempt is too old, or the step timed out for the third
      time or could not be repeated. */
  predicate Fails(a: Attempt, e: Event)
    requires e.Turn?
  {
    e.connectTimeout || (e.stepTimeout && (a.retry + 1 >= MAX_RETRY || !e.accepted))
  }

  /** A turn while a response is awaited. */
  function Retried(a: Attempt, resendIn: State, e: Event): Attempt
    requires e.Turn?
  {
    var b := Counted(a, resendIn, e.stepTimeout);
    if Fails(a, e) then GivenUp(b) else b
  }

  /** An authentication frame; a failed one gives up after clearing the counter. */
  function Answered(a: Attempt, success: bool, confirm: bool): Attempt {
    var b := a.(state := Authed, retry := 0);
    var c := if success then b else GivenUp(b);
    var d := if confirm then c.(confirmed := true) else c;
    if success && !d.confirmed then d.(clears := d.clears + 1) else d
  }

  function Step(a: Attempt, e: Event): Attempt {
    match e
    case Request(next) => Fresh(next, a.confirmed)
    case Turn(_, _, _) =>
      if a.state.Authing? || (a.state.Authed? && !a.confirmed) then Retried(a, Authing, e)
      else if a.state.Associng? then Retried(a, Associng, e)
      else a
    case AuthFrame(success, confirm) => Answered(a, success, confirm)
    case AssocFrame(success) => a.(state := if success then Assoced else NoState)
    case Authorize => a.(state := Completed)
    case GiveUp => GivenUp(a)
  }

  function Run(a: Attempt, events: seq<Event>): Attempt
    decreases |events|
  {
    if events == [] then a else Step(Run(a, events[..|events| - 1]), events[|events| - 1])
  }

  /** The worker may still resend. */
  predicate Resending(a: Attempt) {
    a.state.Authing? || a.state.Associng? || (a.state.Authed? && !a.confirmed)
  }

  /** Two resends for the request and two more for every clearing frame; while the
      worker may still resend, the retry counter says how many are used. */
  predicate Bounded(a: Attempt) {
    && a.resends <= (MAX_RETRY - 1) * (1 + a.clears)
    && (Resending(a) ==> a.retry < MAX_RETRY && a.resends <= (MAX_RETRY - 1) * a.clears + a.retry)
  }

  lemma CountedIsBounded(a: Attempt, resendIn: State, stepTimeout: bool)
    requires Bounded(a) && Resending(a)
    ensures Bounded(GivenUp(Counted(a, resendIn, stepTimeout)))
    ensures !stepTimeout || a.retry + 1 < MAX_RETRY ==> Bounded(Counted(a, resendIn, stepTimeout))
  {
  }

  lemma StepIsBounded(a: Attempt, e: Event)
    requires Bounded(a)
    ensures Bounded(Step(a, e))
  {
    if e.Turn? && Resending(a) {
      CountedIsBounded(a, if a.state.Associng? then Associng else Authing, e.stepTimeout);
    }
  }

  lemma {:induction false} RunIsBounded(a: Attempt, events: seq<Event>)
    requires Bounded(a)
    ensures Bounded(Run(a, events))
    decreases |events|
  {
    if events != [] {
      RunIsBounded(a, events[..|events| - 1]);
      StepIsBounded(Run(a, events[..|events| - 1]), events[|events| - 1]);
    }
  }

  /** Once a turn has seen the connect timeout nothing is waited for any more, however
      the run got there. */
  lemma NoneWaitsPastTimeout(a: Attempt, events: seq<Event>, e: Event)
    requires e.Turn? && e.connectTimeout
    ensures !Resending(Run(a, events + [e]))
  {
    assert (events + [e])[..|events|] == events;
  }

  // ----- the bound is met -----

  const LATE := Turn(false, true, true)

  const CLEARING := AuthFrame(true, false)

  /** Two resends after the request and after each of n clearing frames. */
  function WorstRun(n: nat): seq<Event> {
    var before := if n == 0 then [] else WorstRun(n - 1) + [CLEARING];
    (before + [LATE]) + [LATE]
  }

  lemma RunAppend(a: Attempt, events: seq<Event>, e: Event)
    ensures Run(a, events + [e]) == Step(Run(a, events), e)
  {
    assert (events + [e])[..|events|] == events;
  }

  /** After the n-th clearing frame, or the request, and `retry` late turns. */
  function Late(n: nat, retry: nat): Attempt {
    Attempt(if n > 0 && retry == 0 then Authed else Authing, false, retry, (MAX_RETRY - 1) * n + retry, n)
  }

  /** Every resend is used. */
  function Spent(n: nat): Attempt {
    Late(n, MAX_RETRY - 1)
  }

  lemma LateSteps(n: nat)
    ensures Step(Late(n, 0), LATE) == Late(n, 1) && Step(Late(n, 1), LATE) == Spent(n)
    ensures Step(Spent(n), CLEARING) == Late(n + 1, 0)
  {
  }

  lemma {:induction false} WorstRunMeetsBound(n: nat)
    ensures Run(Fresh(Authing, false), WorstRun(n)) == Spent(n)
  {
    var start, before := Fresh(Authing, false), if n == 0 then [] else WorstRun(n - 1) + [CLEARING];
    if n > 0 {
      WorstRunMeetsBound(n - 1);
      RunAppend(start, WorstRun(n - 1), CLEARING);
      LateSteps(n - 1);
    }
    LateSteps(n);
    RunAppend(start, before, LATE);
    RunAppend(start, before + [LATE], LATE);
  }

  /** A request with n clearing frames stays within `limit` resends in every run. */
  ghost predicate AtMost(limit: nat, n: nat) {
    forall next, confirmed, events ::
      Run(Fresh(next, confirmed), events).clears == n ==> Run(Fresh(next, confirmed), events).resends <= limit
  }

  /** The best bound for a request is two resends for it and for each clearing frame. */
  lemma ResendsPerRequest(limit: nat, n: nat)
    ensures AtMost(limit, n) <==> (MAX_RETRY - 1) * (1 + n) <= limit
  {
    WorstRunMeetsBound(n);
    assert Run(Fresh(Authing, false), WorstRun(n)).clears == n;
    forall next, confirmed, events
      ensures var a := Run(Fresh(next, confirmed), events);
              a.resends <= (MAX_RETRY - 1) * (1 + a.clears)
    {
      RunIsBounded(Fresh(next, confirmed), events);
    }
  }

  /** So two resends are all exactly when no frame clears the counter in between. */
  lemma TwoResendsExactly(n: nat)
    ensures AtMost(MAX_RETRY - 1, n) <==> n == 0
  {
    ResendsPerRequest(MAX_RETRY - 1, n);
  }
}
