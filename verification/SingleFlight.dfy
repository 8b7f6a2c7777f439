/**
 The single-flight read protocol of the HTTP client as a transition system.

 `Join`, `Leave` and `Publish` are the three critical sections that run under the
 client's mutex.  Callers and runners take one atomic step at a time, in any order,
 so a statement about every run is a statement about every interleaving.
 */
module SingleFlight {
  import opened Wrappers

  datatype Outcome = Fetched(status: int, body: string) | Failed(reason: string)

  // ----- what the mutex protects -----

  /** `closes` counts the closes of the done channel; a second close would panic. */
  datatype Flight = Flight(key: string, waiters: int, closes: nat, reply: Option<Outcome>, cancelled: bool)

  datatype Shared = Shared(flights: seq<Flight>, registry: map<string, nat>)

  function Join(sh: Shared, key: string): (Shared, nat, bool)
    requires key in sh.registry ==> sh.registry[key] < |sh.flights|
  {
    if key in sh.registry then
      var f := sh.registry[key];
      var joined := sh.flights[f].(waiters := sh.flights[f].waiters + 1);
      (sh.(flights := sh.flights[f := joined]), f, false)
    else
      var f := |sh.flights|;
      (Shared(sh.flights + [Flight(key, 1, 0, None, false)], sh.registry[key := f]), f, true)
  }

  /** The last waiter out cancels the flight and unregisters it, if it is still the registered one. */
  function Leave(sh: Shared, key: string, f: nat): Shared
    requires f < |sh.flights|
  {
    var left := sh.flights[f].(waiters := sh.flights[f].waiters - 1);
    if left.waiters <= 0 then
      Shared(sh.flights[f := left.(cancelled := true)],
             if key in sh.registry && sh.registry[key] == f then sh.registry - {key} else sh.registry)
    else
      sh.(flights := sh.flights[f := left])
  }

  /** The runner stores the reply, closes the channel and unregisters the key, whichever flight holds it. */
  function Publish(sh: Shared, key: string, f: nat, outcome: Outcome): Shared
    requires f < |sh.flights|
  {
    var published := sh.flights[f].(reply := Some(outcome), closes := sh.flights[f].closes + 1);
    Shared(sh.flights[f := published], sh.registry - {key})
  }

  // ----- callers, runners and permits -----

  datatype Answer = FromFlight(outcome: Outcome) | OwnContextDone

  datatype Phase = Launching | Waiting | Answered(answer: Answer) | Left(answer: Answer)

  datatype Caller = Caller(key: string, flight: nat, phase: Phase)

  datatype Runner =
    | Unstarted
    | Queued
    | Holding
    | Returned(outcome: Outcome)
    | Published(outcome: Outcome)
    | Finished(outcome: Outcome)

  /** `permits` is the number of tokens in the permit channel; downloads take permits as well. */
  datatype System = System(shared: Shared, callers: map<nat, Caller>, runners: seq<Runner>,
                           permits: nat, capacity: nat, downloads: nat)

  datatype Action =
    | JoinFlight(c: nat, key: string)
    | LaunchRunner(c: nat)
    | Acquire(f: nat)
    | AbortQueued(f: nat, timedOut: bool)
    | Return(f: nat, outcome: Outcome)
    | PublishReply(f: nat)
    | CancelOwn(f: nat)
    | Wake(c: nat)
    | GiveUp(c: nat)
    | LeaveFlight(c: nat)
    | StartDownload
    | EndDownload

  const ABORTED := Failed("context done")

  function Capacity(maxParallel: int): nat {
    if maxParallel < 1 then 1 else maxParallel
  }

  function Initial(maxParallel: int): System {
    System(Shared([], map[]), map[], [], 0, Capacity(maxParallel), 0)
  }

  ghost predicate IsFlight(s: System, f: nat) {
    f < |s.shared.flights| && f < |s.runners|
  }

  ghost predicate IsCaller(s: System, c: nat) {
    c in s.callers && IsFlight(s, s.callers[c].flight)
  }

  ghost predicate Enabled(s: System, a: Action) {
    match a
    case JoinFlight(c, key) => c !in s.callers
        && (key in s.shared.registry ==> s.shared.registry[key] < |s.shared.flights|)
    case LaunchRunner(c) => IsCaller(s, c) && s.callers[c].phase.Launching?
    case Acquire(f) => IsFlight(s, f) && s.runners[f].Queued? && s.permits < s.capacity
    case AbortQueued(f, timedOut) => IsFlight(s, f) && s.runners[f].Queued?
        && (s.shared.flights[f].cancelled || timedOut)
    case Return(f, _) => IsFlight(s, f) && s.runners[f].Holding? && s.permits > 0
    case PublishReply(f) => IsFlight(s, f) && s.runners[f].Returned?
    case CancelOwn(f) => IsFlight(s, f) && s.runners[f].Published?
    case Wake(c) =>
      IsCaller(s, c) && s.callers[c].phase.Waiting? &&
      var flight := s.shared.flights[s.callers[c].flight]; flight.closes > 0 && flight.reply.Some?
    case GiveUp(c) => IsCaller(s, c) && s.callers[c].phase.Waiting?
    case LeaveFlight(c) => IsCaller(s, c) && s.callers[c].phase.Answered?
    case StartDownload => s.permits < s.capacity
    case EndDownload => s.downloads > 0 && s.permits > 0
  }

  function SetPhase(s: System, c: nat, phase: Phase): System
    requires c in s.callers
  {
    s.(callers := s.callers[c := s.callers[c].(phase := phase)])
  }

  ghost function Apply(s: System, a: Action): System
    requires Enabled(s, a)
  {
    match a
    case JoinFlight(c, key) =>
      var (shared, f, leader) := Join(s.shared, key);
      s.(shared := shared,
         callers := s.callers[c := Caller(key, f, if leader then Launching else Waiting)],
         runners := if leader then s.runners + [Unstarted] else s.runners)
    case LaunchRunner(c) =>
      SetPhase(s, c, Waiting).(runners := s.runners[s.callers[c].flight := Queued])
    case Acquire(f) =>
      s.(runners := s.runners[f := Holding], permits := s.permits + 1)
    case AbortQueued(f, _) =>
      s.(runners := s.runners[f := Returned(ABORTED)])
    case Return(f, outcome) =>
      s.(runners := s.runners[f := Returned(outcome)], permits := s.permits - 1)
    case PublishReply(f) =>
      var outcome := s.runners[f].outcome;
      s.(shared := Publish(s.shared, s.shared.flights[f].key, f, outcome),
         runners := s.runners[f := Published(outcome)])
    case CancelOwn(f) =>
      s.(shared := s.shared.(flights := s.shared.flights[f := s.shared.flights[f].(cancelled := true)]),
         runners := s.runners[f := Finished(s.runners[f].outcome)])
    case Wake(c) =>
      SetPhase(s, c, Answered(FromFlight(s.shared.flights[s.callers[c].flight].reply.value)))
    case GiveUp(c) =>
      SetPhase(s, c, Answered(OwnContextDone))
    case LeaveFlight(c) =>
      SetPhase(s, c, Left(s.callers[c].phase.answer)).(
        shared := Leave(s.shared, s.callers[c].key, s.callers[c].flight))
    case StartDownload =>
      s.(permits := s.permits + 1, downloads := s.downloads + 1)
    case EndDownload =>
      s.(permits := s.permits - 1, downloads := s.downloads - 1)
  }

  /** `states` is the history of a run: the initial state, then one state after each action. */
  ghost predicate IsRun(maxParallel: int, states: seq<System>, actions: seq<Action>) {
    && |states| == |actions| + 1
    && states[0] == Initial(maxParallel)
    && forall i | 0 <= i < |actions| ::
         Enabled(states[i], actions[i]) && states[i + 1] == Apply(states[i], actions[i])
  }

  // ----- the invariant -----

  /** The callers that joined flight `f` and have not left it. */
  ghost function Attached(s: System, f: nat): set<nat> {
    set c | c in s.callers && s.callers[c].flight == f && !s.callers[c].phase.Left?
  }

  ghost function Holders(s: System): set<nat> {
    set f: nat | f < |s.runners| && s.runners[f].Holding?
  }

  ghost predicate Unfinished(s: System, f: nat) {
    f < |s.shared.flights| && s.shared.flights[f].closes == 0
  }

  ghost predicate Registered(s: System, f: nat) {
    f < |s.shared.flights| && s.shared.flights[f].key in s.shared.registry
        && s.shared.registry[s.shared.flights[f].key] == f
  }

  /** What holds of one flight and its runner. */
  ghost predicate FlightOk(s: System, f: nat)
    requires f < |s.shared.flights| && |s.runners| == |s.shared.flights|
  {
    var flight := s.shared.flights[f];
    && flight.waiters == |Attached(s, f)|
    && flight.closes == (if s.runners[f].Published? || s.runners[f].Finished? then 1 else 0)
    && (flight.closes == 1 ==> flight.reply == Some(s.runners[f].outcome))
    && (flight.cancelled ==> flight.closes == 1 || flight.waiters == 0)
    && (flight.waiters == 0 ==> flight.cancelled)
  }

  ghost predicate FlightsOk(s: System) {
    && |s.runners| == |s.shared.flights|
    && forall f: nat | f < |s.shared.flights| :: FlightOk(s, f)
  }

  ghost predicate RegistryOk(s: System) {
    forall key | key in s.shared.registry ::
      var f := s.shared.registry[key];
      Unfinished(s, f) && s.shared.flights[f].key == key && s.shared.flights[f].waiters > 0
  }

  ghost predicate CallerOk(s: System, c: nat)
    requires c in s.callers && |s.runners| == |s.shared.flights|
  {
    var caller := s.callers[c];
    && caller.flight < |s.shared.flights|
    && caller.key == s.shared.flights[caller.flight].key
    && (caller.phase.Launching? ==> s.runners[caller.flight].Unstarted?)
    && (forall outcome ::
          caller.phase == Answered(FromFlight(outcome)) || caller.phase == Left(FromFlight(outcome)) ==>
          s.shared.flights[caller.flight].closes == 1 && s.shared.flights[caller.flight].reply == Some(outcome))
  }

  ghost predicate CallersOk(s: System) {
    && |s.runners| == |s.shared.flights|
    && forall c | c in s.callers :: CallerOk(s, c)
  }

  /** An unstarted runner has exactly one caller that is about to start it. */
  ghost predicate LaunchesOk(s: System) {
    && (forall f: nat | f < |s.runners| && s.runners[f].Unstarted? ::
          exists c :: c in s.callers && s.callers[c].flight == f && s.callers[c].phase.Launching?)
    && (forall c, d | c in s.callers && d in s.callers
        && s.callers[c].phase.Launching? && s.callers[d].phase.Launching? ::
          s.callers[c].flight == s.callers[d].flight ==> c == d)
  }

  ghost predicate PermitsOk(s: System) {
    s.permits == |Holders(s)| + s.downloads && s.permits <= s.capacity
  }

  ghost predicate Inv(s: System) {
    FlightsOk(s) && RegistryOk(s) && CallersOk(s) && LaunchesOk(s) && PermitsOk(s)
  }

  // ----- every step keeps the invariant -----

  lemma AttachedAfterJoin(s: System, c: nat, key: string, f: nat)
    requires Inv(s) && Enabled(s, JoinFlight(c, key))
    ensures
      var t := Apply(s, JoinFlight(c, key));
      Attached(t, f) == if t.callers[c].flight == f then Attached(s, f) + {c} else Attached(s, f)
  {}

  lemma NobodyAttached(s: System, f: nat)
    requires CallersOk(s) && f >= |s.shared.flights|
    ensures Attached(s, f) == {}
  {
    forall d | d in s.callers ensures s.callers[d].flight != f {
      assert CallerOk(s, d);
    }
  }

  lemma FlightsAfterJoin(s: System, c: nat, key: string)
    requires Inv(s) && Enabled(s, JoinFlight(c, key))
    ensures FlightsOk(Apply(s, JoinFlight(c, key)))
  {
    var t := Apply(s, JoinFlight(c, key));
    forall f: nat | f < |t.shared.flights| ensures FlightOk(t, f) {
      AttachedAfterJoin(s, c, key, f);
      if f < |s.shared.flights| {
        assert FlightOk(s, f);
      } else {
        NobodyAttached(s, f);
      }
    }
  }

  lemma AttachedAfterPhase(s: System, c: nat, phase: Phase, f: nat)
    requires c in s.callers && !s.callers[c].phase.Left?
    ensures Attached(SetPhase(s, c, phase), f) ==
            if phase.Left? && s.callers[c].flight == f then Attached(s, f) - {c} else Attached(s, f)
  {}

  lemma FlightsAfterLeave(s: System, c: nat)
    requires Inv(s) && Enabled(s, LeaveFlight(c))
    ensures FlightsOk(Apply(s, LeaveFlight(c)))
  {
    var t := Apply(s, LeaveFlight(c));
    var u := SetPhase(s, c, Left(s.callers[c].phase.answer));
    forall f: nat | f < |t.shared.flights| ensures FlightOk(t, f) {
      assert FlightOk(s, f);
      AttachedAfterPhase(s, c, Left(s.callers[c].phase.answer), f);
      assert Attached(t, f) == Attached(u, f);
      assert f == s.callers[c].flight ==> c in Attached(s, f);
    }
  }

  lemma FlightsAfterCallerStep(s: System, a: Action)
    requires Inv(s) && Enabled(s, a) && (a.LaunchRunner? || a.Wake? || a.GiveUp?)
    ensures FlightsOk(Apply(s, a))
  {
    var t := Apply(s, a);
    forall f: nat | f < |t.shared.flights| ensures FlightOk(t, f) {
      assert FlightOk(s, f);
      assert CallerOk(s, a.c);
      AttachedAfterPhase(s, a.c, t.callers[a.c].phase, f);
      assert Attached(t, f) == Attached(SetPhase(s, a.c, t.callers[a.c].phase), f);
    }
  }

  lemma FlightsAfterRunnerStep(s: System, a: Action)
    requires Inv(s) && Enabled(s, a) && Apply(s, a).callers == s.callers
    ensures FlightsOk(Apply(s, a))
  {
    var t := Apply(s, a);
    forall f: nat | f < |t.shared.flights| ensures FlightOk(t, f) {
      assert FlightOk(s, f);
      assert Attached(t, f) == Attached(s, f);
    }
  }

  lemma RegistryStep(s: System, a: Action)
    requires Inv(s) && Enabled(s, a)
    ensures RegistryOk(Apply(s, a))
  {
    var t := Apply(s, a);
    forall key | key in t.shared.registry
      ensures
        var f := t.shared.registry[key];
        Unfinished(t, f) && t.shared.flights[f].key == key && t.shared.flights[f].waiters > 0
    {
      if key in s.shared.registry {
        assert Unfinished(s, s.shared.registry[key]);
      }
      if a.LeaveFlight? {
        assert CallerOk(s, a.c);
      }
      if a.CancelOwn? {
        assert FlightOk(s, a.f);
      }
    }
  }

  /** Who may be told about: the flight that a key's registration leads to. */
  ghost predicate EntryOk(s: System, key: string) {
    key in s.shared.registry ==>
      Unfinished(s, s.shared.registry[key]) && s.shared.flights[s.shared.registry[key]].key == key
  }

  lemma CallerStep(s: System, a: Action, d: nat)
    requires |s.runners| == |s.shared.flights| && Enabled(s, a) && d in Apply(s, a).callers
    requires d in s.callers ==> CallerOk(s, d) && FlightOk(s, s.callers[d].flight)
    requires a.JoinFlight? ==> EntryOk(s, a.key)
    requires a.LaunchRunner? ==>
        && CallerOk(s, a.c)
        && (d in s.callers && s.callers[d].phase.Launching? && s.callers[d].flight == s.callers[a.c].flight
            ==> d == a.c)
    ensures |Apply(s, a).runners| == |Apply(s, a).shared.flights| && CallerOk(Apply(s, a), d)
  {
    match a
    case JoinFlight(_, _) =>
    case LaunchRunner(_) =>
    case LeaveFlight(_) =>
    case Wake(_) =>
    case GiveUp(_) =>
    case _ =>
      assert Apply(s, a).callers == s.callers;
  }

  lemma CallersStep(s: System, a: Action)
    requires Inv(s) && Enabled(s, a)
    ensures CallersOk(Apply(s, a))
  {
    var t := Apply(s, a);
    forall d | d in t.callers ensures CallerOk(t, d) {
      if d in s.callers {
        assert CallerOk(s, d) && FlightOk(s, s.callers[d].flight);
      }
      if a.LaunchRunner? {
        assert CallerOk(s, a.c);
      }
      CallerStep(s, a, d);
    }
  }

  lemma StartersStep(s: System, a: Action, f: nat)
    requires LaunchesOk(s) && Enabled(s, a) && f < |Apply(s, a).runners| && Apply(s, a).runners[f].Unstarted?
    requires |s.runners| == |s.shared.flights|
    ensures exists c ::
        c in Apply(s, a).callers && Apply(s, a).callers[c].flight == f && Apply(s, a).callers[c].phase.Launching?
  {
    var t := Apply(s, a);
    if f < |s.runners| {
      var c :| c in s.callers && s.callers[c].flight == f && s.callers[c].phase.Launching?;
      assert t.callers[c] == s.callers[c];
    } else {
      assert t.callers[a.c].flight == f;
    }
  }

  lemma LaunchesStep(s: System, a: Action)
    requires Inv(s) && Enabled(s, a)
    ensures LaunchesOk(Apply(s, a))
  {
    var t := Apply(s, a);
    forall f: nat | f < |t.runners| && t.runners[f].Unstarted?
      ensures exists c :: c in t.callers && t.callers[c].flight == f && t.callers[c].phase.Launching?
    {
      StartersStep(s, a, f);
    }
    forall c, d | c in t.callers && d in t.callers && t.callers[c].phase.Launching? && t.callers[d].phase.Launching?
        && t.callers[c].flight == t.callers[d].flight
      ensures c == d
    {
      if c in s.callers { assert CallerOk(s, c); }
      if d in s.callers { assert CallerOk(s, d); }
    }
  }

  lemma HoldersKept(s: System, a: Action)
    requires Enabled(s, a) && !a.Acquire? && !a.Return?
    requires a.LaunchRunner? ==> s.runners[s.callers[a.c].flight].Unstarted?
    ensures Holders(Apply(s, a)) == Holders(s)
  {
  }

  lemma HoldersChange(s: System, a: Action)
    requires Enabled(s, a) && (a.Acquire? || a.Return?)
    ensures a.Acquire? ==> Holders(Apply(s, a)) == Holders(s) + {a.f} && a.f !in Holders(s)
    ensures a.Return? ==> Holders(Apply(s, a)) == Holders(s) - {a.f} && a.f in Holders(s)
  {
  }

  lemma PermitsStep(s: System, a: Action)
    requires PermitsOk(s) && Enabled(s, a)
    requires a.LaunchRunner? ==> s.runners[s.callers[a.c].flight].Unstarted?
    ensures PermitsOk(Apply(s, a))
  {
    if a.Acquire? || a.Return? {
      HoldersChange(s, a);
    } else {
      HoldersKept(s, a);
    }
  }

  lemma StepKeepsInv(s: System, a: Action)
    requires Inv(s) && Enabled(s, a)
    ensures Inv(Apply(s, a))
  {
    match a {
      case JoinFlight(c, key) => FlightsAfterJoin(s, c, key);
      case LeaveFlight(c) => FlightsAfterLeave(s, c);
      case LaunchRunner(_) => FlightsAfterCallerStep(s, a);
      case Wake(_) => FlightsAfterCallerStep(s, a);
      case GiveUp(_) => FlightsAfterCallerStep(s, a);
      case _ => FlightsAfterRunnerStep(s, a);
    }
    RegistryStep(s, a);
    CallersStep(s, a);
    LaunchesStep(s, a);
    if a.LaunchRunner? {
      assert CallerOk(s, a.c);
    }
    PermitsStep(s, a);
  }

  lemma {:induction false} RunKeepsInv(maxParallel: int, states: seq<System>, actions: seq<Action>, n: nat)
    requires IsRun(maxParallel, states, actions) && n < |states|
    ensures Inv(states[n]) && states[n].capacity == Capacity(maxParallel)
  {
    if n == 0 {
      assert Holders(states[0]) == {};
    } else {
      RunKeepsInv(maxParallel, states, actions, n - 1);
      StepKeepsInv(states[n - 1], actions[n - 1]);
    }
  }

  // ----- what every run guarantees -----

  /** Waiters are counted exactly, a done channel closes at most once, and permits are never oversubscribed. */
  lemma EveryRunIsCounted(maxParallel: int, states: seq<System>, actions: seq<Action>, n: nat)
    requires IsRun(maxParallel, states, actions) && n < |states|
    ensures
      var s := states[n];
      && (forall f: nat | f < |s.shared.flights| ::
            s.shared.flights[f].waiters == |Attached(s, f)| && s.shared.flights[f].closes <= 1)
      && (forall key | key in s.shared.registry ::
            var f := s.shared.registry[key];
            Unfinished(s, f) && s.shared.flights[f].key == key && Attached(s, f) != {})
      && |Holders(s)| + s.downloads == s.permits <= s.capacity == (if maxParallel < 1 then 1 else maxParallel)
  {
    RunKeepsInv(maxParallel, states, actions, n);
    var s := states[n];
    forall f: nat | f < |s.shared.flights|
      ensures s.shared.flights[f].waiters == |Attached(s, f)| && s.shared.flights[f].closes <= 1
    {
      assert FlightOk(s, f);
    }
    forall key | key in s.shared.registry ensures Attached(s, s.shared.registry[key]) != {} {
      assert Unfinished(s, s.shared.registry[key]);
      assert FlightOk(s, s.shared.registry[key]);
    }
  }

  /** The client cancels a flight only once it is published or nobody waits for it. */
  lemma CancellationNeedsNoWaiter(maxParallel: int, states: seq<System>, actions: seq<Action>, n: nat, c: nat)
    requires IsRun(maxParallel, states, actions) && n < |states|
    requires c in states[n].callers && !states[n].callers[c].phase.Left?
    requires Unfinished(states[n], states[n].callers[c].flight)
    ensures !states[n].shared.flights[states[n].callers[c].flight].cancelled
  {
    RunKeepsInv(maxParallel, states, actions, n);
    var f := states[n].callers[c].flight;
    assert FlightOk(states[n], f);
    assert c in Attached(states[n], f);
  }

  lemma ZeroStaysInStep(s: System, a: Action, f: nat)
    requires Inv(s) && Enabled(s, a) && f < |s.shared.flights| && s.shared.flights[f].waiters == 0
    ensures f < |Apply(s, a).shared.flights| && Apply(s, a).shared.flights[f].waiters == 0
  {
    assert FlightOk(s, f);
    assert Attached(s, f) == {};
    assert forall c | c in s.callers && s.callers[c].flight == f && !s.callers[c].phase.Left? :: c in Attached(s, f);
    if a.JoinFlight? && a.key in s.shared.registry {
      assert Unfinished(s, s.shared.registry[a.key]);
    }
  }

  /** A waiter count that reached zero stays zero: nobody joins a flight that was given up. */
  lemma {:induction false} ZeroStays(maxParallel: int, states: seq<System>, actions: seq<Action>, i: nat, j: nat,
      f: nat)
    requires IsRun(maxParallel, states, actions) && i <= j < |states|
    requires f < |states[i].shared.flights| && states[i].shared.flights[f].waiters == 0
    ensures f < |states[j].shared.flights| && states[j].shared.flights[f].waiters == 0
  {
    if i < j {
      ZeroStays(maxParallel, states, actions, i, j - 1, f);
      RunKeepsInv(maxParallel, states, actions, j - 1);
      ZeroStaysInStep(states[j - 1], actions[j - 1], f);
    }
  }

  // ----- each caller gets the result of the flight's one upstream read -----

  /** The outcome with which action `a` ends the upstream read of flight `f`, if it does. */
  function Completion(a: Action, f: nat): Option<Outcome> {
    if a.Return? && a.f == f then Some(a.outcome)
    else if a.AbortQueued? && a.f == f then Some(ABORTED)
    else None
  }

  predicate HasOutcome(r: Runner) {
    r.Returned? || r.Published? || r.Finished?
  }

  /** At `i` the read of `f` ended with `outcome`, and it ended at no other point of the run up to `n`. */
  ghost predicate EndedOnlyAt(actions: seq<Action>, n: nat, f: nat, i: nat, outcome: Outcome)
    requires n <= |actions|
  {
    && i < n && Completion(actions[i], f) == Some(outcome)
    && forall j: nat | j < n && j != i :: Completion(actions[j], f) == None
  }

  ghost predicate Ended(s: System, f: nat) {
    f < |s.runners| && HasOutcome(s.runners[f])
  }

  ghost predicate LaunchOk(s: System, a: Action)
    requires Enabled(s, a)
  {
    |s.runners| == |s.shared.flights| && (a.LaunchRunner? ==> s.runners[s.callers[a.c].flight].Unstarted?)
  }

  lemma RunnerStep(s: System, a: Action, f: nat)
    requires Enabled(s, a) && LaunchOk(s, a)
    ensures Ended(s, f) ==>
        Completion(a, f) == None && Ended(Apply(s, a), f) && Apply(s, a).runners[f].outcome == s.runners[f].outcome
    ensures !Ended(s, f) && Completion(a, f) == None ==> !Ended(Apply(s, a), f)
    ensures !Ended(s, f) && Completion(a, f).Some? ==>
        Ended(Apply(s, a), f) && Apply(s, a).runners[f].outcome == Completion(a, f).value
  {
  }

  lemma RunLaunchesOk(maxParallel: int, states: seq<System>, actions: seq<Action>, n: nat)
    requires IsRun(maxParallel, states, actions) && n < |actions|
    ensures Enabled(states[n], actions[n]) && states[n + 1] == Apply(states[n], actions[n])
        && LaunchOk(states[n], actions[n])
  {
    RunKeepsInv(maxParallel, states, actions, n);
    if actions[n].LaunchRunner? {
      assert CallerOk(states[n], actions[n].c);
    }
  }

  lemma StillEndedOnlyAt(actions: seq<Action>, n: nat, f: nat, i: nat, outcome: Outcome)
    requires n < |actions| && EndedOnlyAt(actions, n, f, i, outcome) && Completion(actions[n], f) == None
    ensures EndedOnlyAt(actions, n + 1, f, i, outcome)
  {
  }

  lemma {:induction false} ReadEndsOnce(maxParallel: int, states: seq<System>, actions: seq<Action>, n: nat, f: nat)
    requires IsRun(maxParallel, states, actions) && n < |states|
    ensures
      if Ended(states[n], f)
      then exists i :: EndedOnlyAt(actions, n, f, i, states[n].runners[f].outcome)
      else forall j: nat | j < n :: Completion(actions[j], f) == None
  {
    if n > 0 {
      var s := states[n - 1];
      ReadEndsOnce(maxParallel, states, actions, n - 1, f);
      RunLaunchesOk(maxParallel, states, actions, n - 1);
      RunnerStep(s, actions[n - 1], f);
      if Ended(s, f) {
        var i :| EndedOnlyAt(actions, n - 1, f, i, s.runners[f].outcome);
        StillEndedOnlyAt(actions, n - 1, f, i, s.runners[f].outcome);
      } else if Completion(actions[n - 1], f).Some? {
        assert EndedOnlyAt(actions, n, f, n - 1, Completion(actions[n - 1], f).value);
      }
    }
  }

  // ----- what a caller's own actions say about its answer -----

  function AnswerOf(phase: Phase): Option<Answer> {
    match phase
    case Answered(answer) => Some(answer)
    case Left(answer) => Some(answer)
    case _ => None
  }

  /** Action `a` is among the first `n` of the run. */
  ghost predicate Happened(actions: seq<Action>, n: nat, a: Action)
    requires n <= |actions|
  {
    a in actions[..n]
  }

  /** What the actions of a run say about a caller: whether and under which key it joined, whether done or its own
      context answered it, and whether it left. */
  ghost predicate TellsStory(actions: seq<Action>, n: nat, s: System, c: nat)
    requires n <= |actions|
  {
    && (c in s.callers <==> exists key :: Happened(actions, n, JoinFlight(c, key)))
    && (Happened(actions, n, Wake(c)) || Happened(actions, n, GiveUp(c)) || Happened(actions, n, LeaveFlight(c)) ==>
        c in s.callers)
    && (c in s.callers ==>
        && Happened(actions, n, JoinFlight(c, s.callers[c].key))
        && (Happened(actions, n, Wake(c)) <==>
            AnswerOf(s.callers[c].phase).Some? && AnswerOf(s.callers[c].phase).value.FromFlight?)
        && (Happened(actions, n, GiveUp(c)) <==> AnswerOf(s.callers[c].phase) == Some(OwnContextDone))
        && (Happened(actions, n, LeaveFlight(c)) <==> s.callers[c].phase.Left?))
  }

  lemma HappenedNext(actions: seq<Action>, n: nat, a: Action)
    requires n < |actions|
    ensures Happened(actions, n + 1, a) <==> Happened(actions, n, a) || actions[n] == a
  {
    assert actions[..n + 1] == actions[..n] + [actions[n]];
  }

  lemma StoryGoesOn(s: System, t: System, actions: seq<Action>, n: nat, c: nat)
    requires n < |actions| && Enabled(s, actions[n]) && t == Apply(s, actions[n]) && TellsStory(actions, n, s, c)
    ensures TellsStory(actions, n + 1, t, c)
  {
    forall a ensures Happened(actions, n + 1, a) <==> Happened(actions, n, a) || actions[n] == a {
      HappenedNext(actions, n, a);
    }
    if c in s.callers {
      assert Happened(actions, n + 1, JoinFlight(c, s.callers[c].key));
    } else if c in t.callers {
      assert Happened(actions, n + 1, JoinFlight(c, t.callers[c].key));
    }
  }

  /** Every caller's state is what its own actions say: it is answered by its flight exactly when it was woken, and by
      its own context exactly when it gave up. */
  lemma {:induction false} EveryCallerTellsItsStory(maxParallel: int, states: seq<System>, actions: seq<Action>, n: nat,
      c: nat)
    requires IsRun(maxParallel, states, actions) && n < |states|
    ensures TellsStory(actions, n, states[n], c)
  {
    if n > 0 {
      EveryCallerTellsItsStory(maxParallel, states, actions, n - 1, c);
      StoryGoesOn(states[n - 1], states[n], actions, n - 1, c);
    }
  }

  /**
   A caller that was woken holds from then on, also after it left, exactly the outcome of
   one upstream read: that of a flight under the key with which the caller joined, which
   the run ended once, with that outcome.
   */
  lemma WokenCallersShareOneRead(maxParallel: int, states: seq<System>, actions: seq<Action>, n: nat, c: nat)
    returns (outcome: Outcome)
    requires IsRun(maxParallel, states, actions) && n < |states|
    requires Happened(actions, n, Wake(c))
    ensures c in states[n].callers
    ensures
      var caller := states[n].callers[c];
      && caller.phase == (if Happened(actions, n, LeaveFlight(c)) then Left(FromFlight(outcome))
                          else Answered(FromFlight(outcome)))
      && Happened(actions, n, JoinFlight(c, caller.key))
      && caller.flight < |states[n].shared.flights|
      && states[n].shared.flights[caller.flight].key == caller.key
      && exists i :: EndedOnlyAt(actions, n, caller.flight, i, outcome)
  {
    RunKeepsInv(maxParallel, states, actions, n);
    EveryCallerTellsItsStory(maxParallel, states, actions, n, c);
    var s := states[n];
    var f := s.callers[c].flight;
    outcome := AnswerOf(s.callers[c].phase).value.outcome;
    assert CallerOk(s, c);
    assert FlightOk(s, f);
    assert s.runners[f].outcome == outcome;
    ReadEndsOnce(maxParallel, states, actions, n, f);
  }

  /** The error of its own context is given to a caller exactly when it gave up, and a caller does not do both. */
  lemma OwnContextOnlyAfterGivingUp(maxParallel: int, states: seq<System>, actions: seq<Action>, n: nat, c: nat)
    requires IsRun(maxParallel, states, actions) && n < |states|
    ensures Happened(actions, n, GiveUp(c)) <==>
            c in states[n].callers && AnswerOf(states[n].callers[c].phase) == Some(OwnContextDone)
    ensures !(Happened(actions, n, GiveUp(c)) && Happened(actions, n, Wake(c)))
  {
    EveryCallerTellsItsStory(maxParallel, states, actions, n, c);
  }

  // ----- coalescing: when one key has one read -----

  /** Every unfinished flight that somebody waits for can still be joined. */
  ghost predicate Coalesced(s: System) {
    forall f: nat | Unfinished(s, f) && s.shared.flights[f].waiters > 0 :: Registered(s, f)
  }

  /** The runner's unconditional delete removes a flight other than its own. */
  ghost predicate Displaces(s: System, a: Action)
    requires Enabled(s, a)
  {
    && a.PublishReply?
    && s.shared.flights[a.f].key in s.shared.registry
    && s.shared.registry[s.shared.flights[a.f].key] != a.f
  }

  lemma CoalescedIsUnique(s: System, f: nat, g: nat)
    requires Coalesced(s)
    requires Unfinished(s, f) && s.shared.flights[f].waiters > 0
    requires Unfinished(s, g) && s.shared.flights[g].waiters > 0
    requires s.shared.flights[f].key == s.shared.flights[g].key
    ensures f == g
  {
    assert Registered(s, f) && Registered(s, g);
  }

  /**
   A step keeps coalescing exactly when it is not a publication that finds another
   flight registered under its key; only a flight that was given up can publish so.
   */
  lemma StepCoalesces(s: System, a: Action)
    requires Inv(s) && Enabled(s, a) && Coalesced(s)
    ensures Coalesced(Apply(s, a)) <==> !Displaces(s, a)
    ensures Displaces(s, a) ==> s.shared.flights[a.f].waiters == 0
  {
    var t := Apply(s, a);
    if Displaces(s, a) {
      var g := s.shared.registry[s.shared.flights[a.f].key];
      assert Unfinished(s, g);
      assert FlightOk(s, a.f);
      assert Unfinished(t, g) && t.shared.flights[g].waiters > 0 && !Registered(t, g);
    } else {
      forall f: nat | Unfinished(t, f) && t.shared.flights[f].waiters > 0 ensures Registered(t, f) {
        if f < |s.shared.flights| {
          assert FlightOk(s, f);
        }
        if a.LeaveFlight? { assert CallerOk(s, a.c); }
        StillRegistered(s, a, f);
      }
    }
  }

  lemma StillRegistered(s: System, a: Action, f: nat)
    requires |s.runners| == |s.shared.flights| && Enabled(s, a) && !Displaces(s, a)
    requires f < |s.shared.flights| ==>
        FlightOk(s, f) && (Unfinished(s, f) && s.shared.flights[f].waiters > 0 ==> Registered(s, f))
    requires a.LeaveFlight? ==> CallerOk(s, a.c)
    requires a.JoinFlight? ==>
        EntryOk(s, a.key) && (a.key in s.shared.registry ==> s.shared.flights[s.shared.registry[a.key]].waiters > 0)
    requires Unfinished(Apply(s, a), f) && Apply(s, a).shared.flights[f].waiters > 0
    ensures Registered(Apply(s, a), f)
  {
  }

  /** No flight of the run lost its last waiter before it was published, up to step `n`. */
  ghost predicate NeverAbandoned(states: seq<System>, n: nat)
    requires n < |states|
  {
    forall i: nat, f: nat | i <= n && Unfinished(states[i], f) :: states[i].shared.flights[f].waiters > 0
  }

  lemma {:induction false} RunCoalesces(maxParallel: int, states: seq<System>, actions: seq<Action>, n: nat)
    requires IsRun(maxParallel, states, actions) && n < |states|
    ensures (forall i: nat | i <= n :: Coalesced(states[i])) <==>
        (forall i: nat | i < n :: !Displaces(states[i], actions[i]))
    ensures NeverAbandoned(states, n) ==> forall i: nat | i <= n :: Coalesced(states[i])
  {
    if n == 0 {
      assert Coalesced(states[0]);
    } else {
      RunCoalesces(maxParallel, states, actions, n - 1);
      RunKeepsInv(maxParallel, states, actions, n - 1);
      if forall i: nat | i <= n - 1 :: Coalesced(states[i]) {
        StepCoalesces(states[n - 1], actions[n - 1]);
        if NeverAbandoned(states, n) && Displaces(states[n - 1], actions[n - 1]) {
          assert FlightOk(states[n - 1], actions[n - 1].f);
          assert Unfinished(states[n - 1], actions[n - 1].f);
          assert false;
        }
        assert (forall i: nat | i <= n :: Coalesced(states[i])) <==> Coalesced(states[n]);
      }
      assert NeverAbandoned(states, n) ==> NeverAbandoned(states, n - 1);
    }
  }

  /** In a run that abandons no flight, a key never has two unfinished flights. */
  lemma OneReadPerKey(maxParallel: int, states: seq<System>, actions: seq<Action>, n: nat, f: nat, g: nat)
    requires IsRun(maxParallel, states, actions) && n < |states|
    requires NeverAbandoned(states, n)
    requires Unfinished(states[n], f) && Unfinished(states[n], g)
    requires states[n].shared.flights[f].key == states[n].shared.flights[g].key
    ensures f == g
  {
    RunCoalesces(maxParallel, states, actions, n);
    assert Coalesced(states[n]);
    CoalescedIsUnique(states[n], f, g);
  }

  // ----- coalescing is uniqueness -----

  /** Of the unfinished flights that somebody waits for, no two have one key. */
  ghost predicate UniqueReads(s: System) {
    forall f: nat, g: nat | IsRead(s, f) && IsRead(s, g) && s.shared.flights[f].key == s.shared.flights[g].key :: f == g
  }

  ghost predicate IsRead(s: System, f: nat) {
    Unfinished(s, f) && s.shared.flights[f].waiters > 0
  }

  ghost predicate JoinsUniquely(s: System, c: nat, key: string) {
    Enabled(s, JoinFlight(c, key)) ==> UniqueReads(Apply(s, JoinFlight(c, key)))
  }

  /** Reads are unique now, and stay so whoever joins whatever key next. */
  ghost predicate SafelyUnique(s: System) {
    UniqueReads(s) && forall c, key :: JoinsUniquely(s, c, key)
  }

  /** While a read is not registered under its key, a join of the key makes a second read of it, or there is one
      already. */
  lemma UnregisteredReadIsDoubled(s: System, f: nat, c: nat)
    requires Inv(s) && IsRead(s, f) && !Registered(s, f) && c !in s.callers
    ensures
      var key := s.shared.flights[f].key;
      && Enabled(s, JoinFlight(c, key))
      && var t := Apply(s, JoinFlight(c, key));
         IsRead(t, f) && Registered(t, t.callers[c].flight) && IsRead(t, t.callers[c].flight)
             && t.callers[c].flight != f
         && t.shared.flights[f].key == t.shared.flights[t.callers[c].flight].key == key
  {
    var key := s.shared.flights[f].key;
    if key in s.shared.registry {
      assert Unfinished(s, s.shared.registry[key]);
    }
  }

  /** After a publication that displaces a flight, the next caller of the key starts a second read beside it. */
  lemma DisplacedKeyIsReadTwice(s: System, a: Action, c: nat)
    requires Inv(s) && Enabled(s, a) && Displaces(s, a) && c !in s.callers
    ensures
      var key := s.shared.flights[a.f].key;
      && Enabled(Apply(s, a), JoinFlight(c, key))
      && var t, g := Apply(Apply(s, a), JoinFlight(c, key)), s.shared.registry[key];
         IsRead(t, g) && IsRead(t, t.callers[c].flight) && t.callers[c].flight != g && t.shared.flights[g].key == key
  {
    var key := s.shared.flights[a.f].key;
    var g := s.shared.registry[key];
    assert Unfinished(s, g);
    StepKeepsInv(s, a);
    assert Apply(s, a).callers == s.callers;
    UnregisteredReadIsDoubled(Apply(s, a), g, c);
  }

  /** Caller numbers are never exhausted. */
  lemma {:induction false} NewCaller(taken: set<nat>) returns (c: nat)
    ensures forall d | d in taken :: d < c
  {
    c := 0;
    if taken != {} {
      var d :| d in taken;
      var rest := NewCaller(taken - {d});
      c := if rest > d then rest else d + 1;
      assert forall e | e in taken :: e == d || e in taken - {d};
    }
  }

  lemma JoinStaysUnique(s: System, c: nat, key: string)
    requires Inv(s) && Coalesced(s) && Enabled(s, JoinFlight(c, key))
    ensures UniqueReads(Apply(s, JoinFlight(c, key)))
  {
    var t := Apply(s, JoinFlight(c, key));
    StepCoalesces(s, JoinFlight(c, key));
    forall f: nat, g: nat | IsRead(t, f) && IsRead(t, g) && t.shared.flights[f].key == t.shared.flights[g].key
        ensures f == g {
      CoalescedIsUnique(t, f, g);
    }
  }

  /** Coalescing is exactly the safe uniqueness of reads. */
  lemma CoalescedMeansUnique(s: System)
    requires Inv(s)
    ensures Coalesced(s) <==> SafelyUnique(s)
  {
    if Coalesced(s) {
      forall f: nat, g: nat | IsRead(s, f) && IsRead(s, g) && s.shared.flights[f].key == s.shared.flights[g].key
          ensures f == g {
        CoalescedIsUnique(s, f, g);
      }
      forall c, key ensures JoinsUniquely(s, c, key) {
        if Enabled(s, JoinFlight(c, key)) {
          JoinStaysUnique(s, c, key);
        }
      }
    } else {
      var f: nat :| Unfinished(s, f) && s.shared.flights[f].waiters > 0 && !Registered(s, f);
      var c := NewCaller(s.callers.Keys);
      assert c !in s.callers;
      UnregisteredReadIsDoubled(s, f, c);
      assert !JoinsUniquely(s, c, s.shared.flights[f].key);
    }
  }

  /** A run keeps reads safely unique exactly when none of its publications displaces another flight. */
  lemma RunKeepsReadsUnique(maxParallel: int, states: seq<System>, actions: seq<Action>, n: nat)
    requires IsRun(maxParallel, states, actions) && n < |states|
    ensures (forall i: nat | i <= n :: SafelyUnique(states[i])) <==>
        (forall i: nat | i < n :: !Displaces(states[i], actions[i]))
  {
    RunCoalesces(maxParallel, states, actions, n);
    forall i: nat | i <= n ensures SafelyUnique(states[i]) <==> Coalesced(states[i]) {
      RunKeepsInv(maxParallel, states, actions, i);
      CoalescedMeansUnique(states[i]);
    }
  }

  // ----- no deadlock -----

  /** A step that depends on no caller's decision. */
  predicate Independent(a: Action) {
    a.LaunchRunner? || a.Acquire? || a.Return? || a.PublishReply? || a.EndDownload?
  }

  /** How many such steps a flight is away from its publication. */
  function Distance(s: System, f: nat): nat
    requires f < |s.runners|
  {
    match s.runners[f]
    case Unstarted => 5
    case Queued => if s.permits < s.capacity then 3 else 4
    case Holding => 2
    case Returned(_) => 1
    case _ => 0
  }

  /** While a flight is unfinished, some step that depends on no caller's decision brings it nearer to its
      publication. */
  lemma NeverStuck(s: System, f: nat) returns (a: Action)
    requires Inv(s) && s.capacity > 0 && Unfinished(s, f)
    ensures Enabled(s, a) && Independent(a)
    ensures f < |Apply(s, a).runners| && Distance(Apply(s, a), f) < Distance(s, f)
    ensures Unfinished(Apply(s, a), f) <==> Distance(Apply(s, a), f) > 0
  {
    assert FlightOk(s, f);
    match s.runners[f] {
      case Unstarted =>
        var c :| c in s.callers && s.callers[c].flight == f && s.callers[c].phase.Launching?;
        a := LaunchRunner(c);
      case Queued =>
        if s.permits < s.capacity {
          a := Acquire(f);
        } else if s.downloads > 0 {
          a := EndDownload;
        } else {
          assert Holders(s) != {};
          var g :| g in Holders(s);
          a := Return(g, ABORTED);
        }
      case Holding =>
        assert f in Holders(s);
        a := Return(f, ABORTED);
      case Returned(_) =>
        a := PublishReply(f);
    }
  }

  /** A run that goes on from another one by at most `bound` steps, none of which depends on a caller's decision. */
  ghost predicate GoesOn(maxParallel: int, states: seq<System>, actions: seq<Action>,
                         longer: seq<System>, more: seq<Action>, bound: nat) {
    && IsRun(maxParallel, longer, more) && states <= longer && actions <= more && |more| <= |actions| + bound
    && forall i | |actions| <= i < |more| :: Independent(more[i])
  }

  ghost predicate IsPublished(s: System, f: nat) {
    f < |s.shared.flights| && s.shared.flights[f].closes == 1
  }

  lemma GoesOnFurther(maxParallel: int, states: seq<System>, actions: seq<Action>, t: System, a: Action,
                      longer: seq<System>, more: seq<Action>, bound: nat)
    requires Independent(a) && GoesOn(maxParallel, states + [t], actions + [a], longer, more, bound)
    ensures GoesOn(maxParallel, states, actions, longer, more, bound + 1)
  {
    assert more[|actions|] == (actions + [a])[|actions|] == a;
    assert states <= states + [t] && actions <= actions + [a];
  }

  lemma {:induction false} PublishedWithin(maxParallel: int, states: seq<System>, actions: seq<Action>, f: nat,
      bound: nat)
    returns (longer: seq<System>, more: seq<Action>)
    requires IsRun(maxParallel, states, actions)
    requires IsPublished(states[|actions|], f)
             || (Unfinished(states[|actions|], f) && f < |states[|actions|].runners|
                 && Distance(states[|actions|], f) <= bound)
    ensures GoesOn(maxParallel, states, actions, longer, more, bound) && IsPublished(longer[|more|], f)
    decreases bound
  {
    longer, more := states, actions;
    var s := states[|actions|];
    if !IsPublished(s, f) {
      RunKeepsInv(maxParallel, states, actions, |actions|);
      var a, t := StepToPublication(s, f);
      RunExtends(maxParallel, states, actions, a, t);
      longer, more := PublishedWithin(maxParallel, states + [t], actions + [a], f, bound - 1);
      GoesOnFurther(maxParallel, states, actions, t, a, longer, more, bound - 1);
    }
  }

  lemma StepToPublication(s: System, f: nat) returns (a: Action, t: System)
    requires Inv(s) && s.capacity > 0 && Unfinished(s, f)
    ensures Enabled(s, a) && Independent(a) && t == Apply(s, a) && f < |s.runners| && f < |t.runners|
    ensures IsPublished(t, f) || (Unfinished(t, f) && Distance(t, f) < Distance(s, f))
    ensures Distance(s, f) <= 5
  {
    a := NeverStuck(s, f);
    t := Apply(s, a);
    StepKeepsInv(s, a);
    assert FlightOk(s, f) && FlightOk(t, f);
  }

  /** From every reachable state with an unfinished flight, at most five steps that depend on no caller's decision
      lead to its publication. */
  lemma PublishedInFiveSteps(maxParallel: int, states: seq<System>, actions: seq<Action>, f: nat)
    returns (longer: seq<System>, more: seq<Action>)
    requires IsRun(maxParallel, states, actions) && Unfinished(states[|actions|], f)
    ensures GoesOn(maxParallel, states, actions, longer, more, 5) && IsPublished(longer[|more|], f)
  {
    RunKeepsInv(maxParallel, states, actions, |actions|);
    longer, more := PublishedWithin(maxParallel, states, actions, f, 5);
  }

  lemma StoryPersists(actions: seq<Action>, more: seq<Action>, a: Action)
    requires actions <= more && !Independent(a)
    requires forall i | |actions| <= i < |more| :: Independent(more[i])
    ensures Happened(more, |more|, a) <==> Happened(actions, |actions|, a)
  {
    if Happened(more, |more|, a) {
      var i :| 0 <= i < |more| && more[i] == a;
      assert i < |actions| && actions[i] == more[i];
    }
    if Happened(actions, |actions|, a) {
      var i :| 0 <= i < |actions| && actions[i] == a;
      assert more[i] == a;
    }
  }

  /** A caller without an answer can be woken as soon as its flight is published. */
  lemma PublishedWakes(s: System, c: nat)
    requires Inv(s) && c in s.callers && AnswerOf(s.callers[c].phase) == None
    requires IsPublished(s, s.callers[c].flight)
    ensures Enabled(s, Wake(c))
  {
    assert CallerOk(s, c);
    assert FlightOk(s, s.callers[c].flight);
  }

  lemma StillUnanswered(maxParallel: int, states: seq<System>, actions: seq<Action>, longer: seq<System>,
                        more: seq<Action>, c: nat)
    requires IsRun(maxParallel, states, actions) && GoesOn(maxParallel, states, actions, longer, more, 5)
    requires c in states[|actions|].callers && AnswerOf(states[|actions|].callers[c].phase) == None
    requires c in longer[|more|].callers
    ensures AnswerOf(longer[|more|].callers[c].phase) == None
  {
    NoAnswerYet(maxParallel, states, actions, c);
    StoryPersists(actions, more, Wake(c));
    StoryPersists(actions, more, GiveUp(c));
    NoAnswerYet(maxParallel, longer, more, c);
  }

  lemma NoAnswerYet(maxParallel: int, states: seq<System>, actions: seq<Action>, c: nat)
    requires IsRun(maxParallel, states, actions) && c in states[|actions|].callers
    ensures AnswerOf(states[|actions|].callers[c].phase) == None <==>
            !Happened(actions, |actions|, Wake(c)) && !Happened(actions, |actions|, GiveUp(c))
  {
    EveryCallerTellsItsStory(maxParallel, states, actions, |actions|, c);
  }

  lemma CallerKeepsFlight(s: System, a: Action, c: nat)
    requires Enabled(s, a) && c in s.callers
    ensures c in Apply(s, a).callers && Apply(s, a).callers[c].flight == s.callers[c].flight
  {
  }

  lemma {:induction false} CallersKeepFlights(maxParallel: int, states: seq<System>, actions: seq<Action>, i: nat,
      j: nat, c: nat)
    requires IsRun(maxParallel, states, actions) && i <= j < |states| && c in states[i].callers
    ensures c in states[j].callers && states[j].callers[c].flight == states[i].callers[c].flight
  {
    if i < j {
      CallersKeepFlights(maxParallel, states, actions, i, j - 1, c);
      CallerKeepsFlight(states[j - 1], actions[j - 1], c);
    }
  }

  /** Whoever has no answer yet gets that of its flight by at most five steps that depend on no caller's decision
      and its own waking up. */
  lemma AnsweredInSixSteps(maxParallel: int, states: seq<System>, actions: seq<Action>, c: nat)
    returns (longer: seq<System>, more: seq<Action>)
    requires IsRun(maxParallel, states, actions)
    requires c in states[|actions|].callers && AnswerOf(states[|actions|].callers[c].phase) == None
    ensures GoesOn(maxParallel, states, actions, longer, more, 5)
    ensures Enabled(longer[|more|], Wake(c))
  {
    RunKeepsInv(maxParallel, states, actions, |actions|);
    var s := states[|actions|];
    var f := s.callers[c].flight;
    assert CallerOk(s, c);
    assert FlightOk(s, f);
    longer, more := states, actions;
    if Unfinished(s, f) {
      longer, more := PublishedInFiveSteps(maxParallel, states, actions, f);
    }
    assert longer[|actions|] == s;
    CallersKeepFlights(maxParallel, longer, more, |actions|, |more|, c);
    StillUnanswered(maxParallel, states, actions, longer, more, c);
    RunKeepsInv(maxParallel, longer, more, |more|);
    PublishedWakes(longer[|more|], c);
  }

  // ----- the run that splits a key -----

  const K := "url|true|1|user"

  lemma AbandonFirstFlight() returns (states: seq<System>, actions: seq<Action>)
    ensures |actions| == 4 && IsRun(1, states, actions)
    ensures states[4] == System(Shared([Flight(K, 0, 0, None, true)], map[]),
                                map[0 := Caller(K, 0, Left(OwnContextDone))], [Queued], 0, 1, 0)
  {
    var s0 := Initial(1);
    var s1 := Apply(s0, JoinFlight(0, K));
    assert s1 == System(Shared([Flight(K, 1, 0, None, false)], map[K := 0]), map[0 := Caller(K, 0, Launching)],
        [Unstarted], 0, 1, 0);
    RunExtends(1, [s0], [], JoinFlight(0, K), s1);
    var s2 := Apply(s1, LaunchRunner(0));
    RunExtends(1, [s0, s1], [JoinFlight(0, K)], LaunchRunner(0), s2);
    var s3 := Apply(s2, GiveUp(0));
    RunExtends(1, [s0, s1, s2], [JoinFlight(0, K), LaunchRunner(0)], GiveUp(0), s3);
    var s4 := Apply(s3, LeaveFlight(0));
    RunExtends(1, [s0, s1, s2, s3], [JoinFlight(0, K), LaunchRunner(0), GiveUp(0)], LeaveFlight(0), s4);
    assert s4.callers == map[0 := Caller(K, 0, Left(OwnContextDone))];
    assert s4.shared.flights == [Flight(K, 0, 0, None, true)];
    assert s4.shared.registry == map[];
    states := [s0, s1, s2, s3] + [s4];
    actions := [JoinFlight(0, K), LaunchRunner(0), GiveUp(0)] + [LeaveFlight(0)];
  }

  lemma RunExtends(maxParallel: int, states: seq<System>, actions: seq<Action>, a: Action, t: System)
    requires IsRun(maxParallel, states, actions) && Enabled(states[|actions|], a) && t == Apply(states[|actions|], a)
    ensures IsRun(maxParallel, states + [t], actions + [a])
  {
    var moreStates, moreActions := states + [t], actions + [a];
    forall i | 0 <= i < |moreActions|
      ensures Enabled(moreStates[i], moreActions[i]) && moreStates[i + 1] == Apply(moreStates[i], moreActions[i])
    {
      if i < |actions| {
        assert moreStates[i] == states[i] && moreStates[i + 1] == states[i + 1] && moreActions[i] == actions[i];
      }
    }
  }

  /** The second caller's flight is running when the first flight's runner notices its cancellation. */
  lemma StartSuccessor(s: System) returns (states: seq<System>, actions: seq<Action>)
    requires s == System(Shared([Flight(K, 0, 0, None, true)], map[]), map[0 := Caller(K, 0, Left(OwnContextDone))],
        [Queued], 0, 1, 0)
    ensures |states| == 2 && actions == [JoinFlight(1, K), LaunchRunner(1)]
    ensures Enabled(s, actions[0]) && states[0] == Apply(s, actions[0])
    ensures Enabled(states[0], actions[1]) && states[1] == Apply(states[0], actions[1])
    ensures states[1] == System(Shared([Flight(K, 0, 0, None, true), Flight(K, 1, 0, None, false)], map[K := 1]),
                                map[0 := Caller(K, 0, Left(OwnContextDone)), 1 := Caller(K, 1, Waiting)],
                                [Queued, Queued], 0, 1, 0)
  {
    actions := [JoinFlight(1, K), LaunchRunner(1)];
    var s5 := Apply(s, actions[0]);
    assert s5.shared.flights == [Flight(K, 0, 0, None, true), Flight(K, 1, 0, None, false)];
    assert s5.runners == [Queued, Unstarted];
    assert s5.callers == map[0 := Caller(K, 0, Left(OwnContextDone)), 1 := Caller(K, 1, Launching)];
    var s6 := Apply(s5, actions[1]);
    assert s6.runners == [Queued, Queued];
    assert s6.callers == map[0 := Caller(K, 0, Left(OwnContextDone)), 1 := Caller(K, 1, Waiting)];
    states := [s5, s6];
  }

  /** Publishing the abandoned flight unregisters the successor, and the next caller starts a third flight. */
  lemma DisplaceSuccessor(s: System) returns (states: seq<System>, actions: seq<Action>)
    requires s == System(Shared([Flight(K, 0, 0, None, true), Flight(K, 1, 0, None, false)], map[K := 1]),
                         map[0 := Caller(K, 0, Left(OwnContextDone)), 1 := Caller(K, 1, Waiting)],
                         [Queued, Queued], 0, 1, 0)
    ensures |states| == 3 && actions == [AbortQueued(0, false), PublishReply(0), JoinFlight(2, K)]
    ensures Enabled(s, actions[0]) && states[0] == Apply(s, actions[0])
    ensures Enabled(states[0], actions[1]) && states[1] == Apply(states[0], actions[1])
    ensures Enabled(states[1], actions[2]) && states[2] == Apply(states[1], actions[2])
    ensures states[2].shared.flights[1..] == [Flight(K, 1, 0, None, false), Flight(K, 1, 0, None, false)]
  {
    actions := [AbortQueued(0, false), PublishReply(0), JoinFlight(2, K)];
    var s7 := Apply(s, actions[0]);
    assert s7.runners == [Returned(ABORTED), Queued];
    var s8 := Apply(s7, actions[1]);
    assert s8.shared.registry == map[];
    assert s8.shared.flights == [Flight(K, 0, 1, Some(ABORTED), true), Flight(K, 1, 0, None, false)];
    var s9 := Apply(s8, actions[2]);
    states := [s7, s8, s9];
  }

  /**
   The delete in runFlight lacks the identity check of leaveFlight, so a flight that was
   given up unregisters its successor when it ends: a third caller then starts a second
   read of the same key while the successor's caller still waits for the first one.
   */
  lemma GivenUpFlightSplitsItsKey() returns (states: seq<System>, actions: seq<Action>)
    ensures IsRun(1, states, actions)
    ensures
      var s := states[|actions|];
      && Unfinished(s, 1) && s.shared.flights[1].waiters == 1
      && Unfinished(s, 2) && s.shared.flights[2].waiters == 1
      && s.shared.flights[1].key == s.shared.flights[2].key
  {
    states, actions := AbandonFirstFlight();
    var states1, actions1 := StartSuccessor(states[4]);
    var states2, actions2 := DisplaceSuccessor(states1[1]);
    RunExtends(1, states, actions, actions1[0], states1[0]);
    RunExtends(1, states + [states1[0]], actions + [actions1[0]], actions1[1], states1[1]);
    states, actions := states + [states1[0]] + [states1[1]], actions + [actions1[0]] + [actions1[1]];
    RunExtends(1, states, actions, actions2[0], states2[0]);
    RunExtends(1, states + [states2[0]], actions + [actions2[0]], actions2[1], states2[1]);
    states, actions := states + [states2[0]] + [states2[1]], actions + [actions2[0]] + [actions2[1]];
    RunExtends(1, states, actions, actions2[2], states2[2]);
    states, actions := states + [states2[2]], actions + [actions2[2]];
    var s := states2[2];
    assert s.shared.flights[1] == s.shared.flights[1..][0] && s.shared.flights[2] == s.shared.flights[1..][1];
  }
}
