/** Which trip is recommended: timing, constraints, ranking and the status of the answer. */
module TripChoice {
  import opened Wrappers
  import opened Sorting
  import opened StationPairs

  /** Why an option cannot be recommended. */
  datatype Reason =
    | NoItinerary | UnknownEvidence
    | UnknownWalking | TooFarOnFoot(limit: int)
    | UnknownArrival | TooLate
    | KnownAlerts
    | UnverifiedAccess
    | UnknownSpaces | StaleSpaces

  datatype TripOption = TripOption(mode: string, score: real, evidence: string, eligible: bool, reasons: seq<Reason>,
                                   duration: Option<int>, departureAt: Option<int>, arrivalAt: Option<int>,
                                   walking: Option<int>, availability: Option<string>, availabilityStale: bool,
                                   accessibility: Option<string>, alerts: nat)

  /** `lower` stands for the lower-casing of texts. */
  datatype Request = Request(departure: int, deadline: Option<int>, maxWalking: int, avoidDisruptions: bool,
      wheelchair: bool, lower: string -> string)

  // ----- timing -----

  /** Instants are nanoseconds. */
  function Timed(departure: int, o: TripOption): TripOption {
    if o.evidence == "unavailable" then o
    else
      var leaves := if o.departureAt.None? then departure else o.departureAt.value;
      o.(departureAt := Some(leaves),
         arrivalAt := if o.arrivalAt.None? && o.duration.Some? then Some(leaves + o.duration.value * NANOSECONDS)
             else o.arrivalAt)
  }

  method ApplyTripTiming(options: array<TripOption>, departure: int)
    modifies options
    ensures forall i | 0 <= i < options.Length ::
        options[i] == Timed(departure, old(options[i])) && TimedFrom(departure, old(options[i]), options[i])
  {
    for i := 0 to options.Length
      invariant forall k | 0 <= k < i :: options[k] == Timed(departure, old(options[k]))
      invariant forall k | i <= k < options.Length :: options[k] == old(options[k])
    {
      var o := options[i];
      if o.evidence != "unavailable" {
        if o.departureAt.None? {
          o := o.(departureAt := Some(departure));
        }
        if o.arrivalAt.None? && o.duration.Some? {
          o := o.(arrivalAt := Some(o.departureAt.value + o.duration.value * NANOSECONDS));
        }
        options[i] := o;
      }
    }
  }

  /** What timing leaves and what it fills in: departures and arrivals that are known stay, the others follow from
      the request's departure and the duration. */
  ghost predicate TimedFrom(departure: int, before: TripOption, after: TripOption) {
    && after == before.(departureAt := after.departureAt, arrivalAt := after.arrivalAt)
    && (before.evidence == "unavailable" ==> after == before)
    && (before.evidence != "unavailable" ==>
          && after.departureAt == (if before.departureAt.Some? then before.departureAt else Some(departure))
          && (before.arrivalAt.Some? ==> after.arrivalAt == before.arrivalAt)
          && (before.arrivalAt.None? && before.duration.None? ==> after.arrivalAt.None?)
          && (before.arrivalAt.None? && before.duration.Some? ==>
                after.arrivalAt == Some(after.departureAt.value + 1_000_000_000 * before.duration.value)))
  }

  lemma TimedIsFilledIn(departure: int, o: TripOption)
    ensures TimedFrom(departure, o, Timed(departure, o))
  {
  }

  // ----- constraints -----

  predicate Known(evidence: string) {
    evidence == "calculated" || evidence == "estimated" || evidence == "mixed"
  }

  predicate StepFree(r: Request, o: TripOption) {
    && o.accessibility.Some?
    && r.lower(o.accessibility.value) in ["accessible", "wheelchair", "wheelchair_accessible"]
  }

  /** When a reason applies: the constraint that it names is violated. */
  predicate Applies(r: Request, o: TripOption, reason: Reason) {
    match reason
    case NoItinerary => o.evidence == "unavailable"
    case UnknownEvidence => o.evidence != "unavailable" && !Known(o.evidence)
    case UnknownWalking => o.walking.None?
    case TooFarOnFoot(limit) => limit == r.maxWalking && o.walking.Some? && o.walking.value > limit
    case UnknownArrival => r.deadline.Some? && o.arrivalAt.None?
    case TooLate => r.deadline.Some? && o.arrivalAt.Some? && o.arrivalAt.value > r.deadline.value
    case KnownAlerts => r.avoidDisruptions && o.alerts != 0
    case UnverifiedAccess => r.wheelchair && !StepFree(r, o)
    case UnknownSpaces => o.mode == "park_and_ride" && o.availability.None?
    case StaleSpaces => o.mode == "park_and_ride" && o.availability.Some? && o.availabilityStale
  }

  /** The request's constraints, as a traveller would put them. */
  ghost predicate Satisfies(r: Request, o: TripOption) {
    && (o.evidence == "calculated" || o.evidence == "estimated" || o.evidence == "mixed")
    && o.walking.Some? && o.walking.value <= r.maxWalking
    && (r.deadline.Some? ==> o.arrivalAt.Some? && o.arrivalAt.value <= r.deadline.value)
    && (r.avoidDisruptions ==> o.alerts == 0)
    && (r.wheelchair ==>
          o.accessibility.Some? &&
          var access := r.lower(o.accessibility.value);
          access == "accessible" || access == "wheelchair" || access == "wheelchair_accessible")
    && (o.mode == "park_and_ride" ==> o.availability.Some? && !o.availabilityStale)
  }

  /** Everything but the verdict, and the evidence that is not one of the known kinds, is left as it was. */
  ghost predicate OnlyJudged(before: TripOption, after: TripOption) {
    after == before.(eligible := after.eligible, reasons := after.reasons,
                     evidence := if Known(before.evidence) then before.evidence else "unavailable")
  }

  /** The verdict on an option: eligible exactly when it satisfies the request, with exactly the reasons that apply. */
  ghost predicate Judged(r: Request, before: TripOption, after: TripOption) {
    && OnlyJudged(before, after)
    && (after.eligible <==> Satisfies(r, before))
    && (after.eligible <==> after.reasons == [])
    && (forall reason :: reason in after.reasons <==> Applies(r, before, reason))
  }

  function EvidenceReasons(o: TripOption): seq<Reason> {
    if o.evidence == "unavailable" then [NoItinerary] else if Known(o.evidence) then [] else [UnknownEvidence]
  }

  function WalkingReasons(r: Request, o: TripOption): seq<Reason> {
    if o.walking.None? then [UnknownWalking]
        else if o.walking.value > r.maxWalking then [TooFarOnFoot(r.maxWalking)] else []
  }

  function ArrivalReasons(r: Request, o: TripOption): seq<Reason> {
    if r.deadline.None? then []
    else if o.arrivalAt.None? then [UnknownArrival]
    else if o.arrivalAt.value > r.deadline.value then [TooLate] else []
  }

  function AlertReasons(r: Request, o: TripOption): seq<Reason> {
    if r.avoidDisruptions && o.alerts != 0 then [KnownAlerts] else []
  }

  function AccessReasons(r: Request, o: TripOption): seq<Reason> {
    if r.wheelchair && !StepFree(r, o) then [UnverifiedAccess] else []
  }

  function ParkingReasons(o: TripOption): seq<Reason> {
    if o.mode != "park_and_ride" then []
    else if o.availability.None? then [UnknownSpaces]
    else if o.availabilityStale then [StaleSpaces] else []
  }

  /** The reasons in the order in which the constraints are checked. */
  function Reasons(r: Request, o: TripOption): seq<Reason> {
    EvidenceReasons(o) + WalkingReasons(r, o) + ArrivalReasons(r, o) + AlertReasons(r, o) + AccessReasons(r, o)
        + ParkingReasons(o)
  }

  lemma EarlyReasonsApply(r: Request, o: TripOption, reason: Reason)
    ensures reason in EvidenceReasons(o) <==> (reason.NoItinerary? || reason.UnknownEvidence?) && Applies(r, o, reason)
    ensures reason in WalkingReasons(r, o) <==>
        (reason.UnknownWalking? || reason.TooFarOnFoot?) && Applies(r, o, reason)
    ensures reason in ArrivalReasons(r, o) <==> (reason.UnknownArrival? || reason.TooLate?) && Applies(r, o, reason)
  {
  }

  lemma LateReasonsApply(r: Request, o: TripOption, reason: Reason)
    ensures reason in AlertReasons(r, o) <==> reason.KnownAlerts? && Applies(r, o, reason)
    ensures reason in AccessReasons(r, o) <==> reason.UnverifiedAccess? && Applies(r, o, reason)
    ensures reason in ParkingReasons(o) <==> (reason.UnknownSpaces? || reason.StaleSpaces?) && Applies(r, o, reason)
  {
  }

  /** The reasons found are exactly those that apply. */
  lemma ReasonsApply(r: Request, o: TripOption, reason: Reason)
    ensures reason in Reasons(r, o) <==> Applies(r, o, reason)
  {
    EarlyReasonsApply(r, o, reason);
    LateReasonsApply(r, o, reason);
  }

  lemma NoReasonMeansSatisfied(r: Request, o: TripOption)
    ensures Reasons(r, o) == [] <==> Satisfies(r, o)
  {
    var first := if o.evidence == "unavailable" then NoItinerary else UnknownEvidence;
    ReasonsApply(r, o, first);
  }

  /** Walking distance and deadline. */
  method CheckLimits(r: Request, o: TripOption, found: seq<Reason>) returns (reasons: seq<Reason>)
    ensures reasons == found + WalkingReasons(r, o) + ArrivalReasons(r, o)
  {
    reasons := found;
    if o.walking.None? {
      reasons := reasons + [UnknownWalking];
    } else if o.walking.value > r.maxWalking {
      reasons := reasons + [TooFarOnFoot(r.maxWalking)];
    }
    assert reasons == found + WalkingReasons(r, o);
    if r.deadline.Some? {
      if o.arrivalAt.None? {
        reasons := reasons + [UnknownArrival];
      } else if o.arrivalAt.value > r.deadline.value {
        reasons := reasons + [TooLate];
      }
    }
  }

  /** Alerts, wheelchair access and parking spaces. */
  method CheckQuality(r: Request, o: TripOption, found: seq<Reason>) returns (reasons: seq<Reason>)
    ensures reasons == found + AlertReasons(r, o) + AccessReasons(r, o) + ParkingReasons(o)
  {
    reasons := found;
    if r.avoidDisruptions && o.alerts != 0 {
      reasons := reasons + [KnownAlerts];
    }
    assert reasons == found + AlertReasons(r, o);
    if r.wheelchair && !StepFree(r, o) {
      reasons := reasons + [UnverifiedAccess];
    }
    assert reasons == found + AlertReasons(r, o) + AccessReasons(r, o);
    if o.mode == "park_and_ride" {
      if o.availability.None? {
        reasons := reasons + [UnknownSpaces];
      } else if o.availabilityStale {
        reasons := reasons + [StaleSpaces];
      }
    }
  }

  method EvaluateTripOption(r: Request, before: TripOption) returns (o: TripOption)
    ensures Judged(r, before, o)
  {
    o := before;
    var reasons: seq<Reason> := [];
    if o.evidence == "unavailable" {
      reasons := reasons + [NoItinerary];
    } else if !Known(o.evidence) {
      o := o.(evidence := "unavailable");
      reasons := reasons + [UnknownEvidence];
    }
    assert reasons == EvidenceReasons(before);
    reasons := CheckLimits(r, o, reasons);
    reasons := CheckQuality(r, o, reasons);
    assert reasons == Reasons(r, before);
    o := o.(eligible := reasons == [], reasons := reasons);
    forall reason ensures reason in o.reasons <==> Applies(r, before, reason) {
      ReasonsApply(r, before, reason);
    }
    NoReasonMeansSatisfied(r, before);
  }

  method EvaluateTripOptions(options: array<TripOption>, r: Request)
    modifies options
    ensures forall i | 0 <= i < options.Length :: Judged(r, old(options[i]), options[i])
  {
    for i := 0 to options.Length
      invariant forall k | 0 <= k < i :: Judged(r, old(options[k]), options[k])
      invariant forall k | i <= k < options.Length :: options[k] == old(options[k])
    {
      options[i] := EvaluateTripOption(r, options[i]);
    }
  }

  /** A second evaluation finds the same verdict. */
  lemma JudgedAgain(r: Request, before: TripOption, once: TripOption, twice: TripOption)
    requires Judged(r, before, once) && Judged(r, once, twice)
    ensures twice.eligible == once.eligible && twice.evidence == once.evidence
    ensures Known(before.evidence) || before.evidence == "unavailable" ==>
      forall reason :: reason in twice.reasons <==> reason in once.reasons
  {
    forall reason | Known(before.evidence) || before.evidence == "unavailable"
      ensures Applies(r, once, reason) <==> Applies(r, before, reason) {
    }
  }

  /** With a known duration and evidence, the deadline is always decided, and decided by departure plus duration. */
  lemma DeadlineIsDecided(r: Request, o: TripOption, judged: TripOption)
    requires Judged(r, Timed(r.departure, o), judged) && Known(o.evidence) && o.duration.Some?
    ensures UnknownArrival !in judged.reasons
    ensures r.deadline.Some? && o.arrivalAt.None? ==>
      (TooLate in judged.reasons <==>
         (if o.departureAt.Some? then o.departureAt.value
             else r.departure) + o.duration.value * NANOSECONDS > r.deadline.value)
  {
    assert UnknownArrival in judged.reasons <==> Applies(r, Timed(r.departure, o), UnknownArrival);
    assert TooLate in judged.reasons <==> Applies(r, Timed(r.departure, o), TooLate);
  }

  // ----- ranking -----

  /** Eligible options first, then by descending score. */
  predicate RanksBefore(a: TripOption, b: TripOption) {
    if a.eligible != b.eligible then a.eligible else a.score > b.score
  }

  predicate NotAfter(a: TripOption, b: TripOption) {
    !RanksBefore(b, a)
  }

  lemma NotAfterIsOrder()
    ensures TotalPreorder(NotAfter)
  {
  }

  datatype Answer = Answer(ranked: seq<TripOption>, recommended: Option<TripOption>, status: string)

  /** No eligible option stands behind another one, and neither the eligible ones nor the others rise in score. */
  ghost predicate Ranked(ranked: seq<TripOption>) {
    forall i, j | 0 <= i < j < |ranked| ::
      && (ranked[j].eligible ==> ranked[i].eligible)
      && (ranked[i].eligible == ranked[j].eligible ==> ranked[i].score >= ranked[j].score)
  }

  /** The answer to a request whose options, once timed and judged, are `judged`. */
  ghost predicate Answers(judged: seq<TripOption>, status: string, warned: bool, wheelchair: bool, answer: Answer) {
    && multiset(answer.ranked) == multiset(judged)
    && Ranked(answer.ranked)
    && match answer.recommended
       case None =>
         && (forall i | 0 <= i < |judged| :: !judged[i].eligible)
         && answer.status == (if wheelchair || warned
             || (exists i :: 0 <= i < |judged| && judged[i].evidence == "unavailable") then "unavailable"
             else "not_found")
       case Some(o) =>
         && answer.status == status
         && answer.ranked != [] && answer.ranked[0] == o
         && (exists i: nat :: FirstBest(judged, i) && judged[i] == o)
  }

  /** Option `i` is eligible, no eligible option scores higher, and none before it scores as high. */
  ghost predicate FirstBest(judged: seq<TripOption>, i: nat) {
    && i < |judged| && judged[i].eligible
    && (forall j | 0 <= j < |judged| && judged[j].eligible :: judged[j].score <= judged[i].score)
    && (forall j | 0 <= j < i && judged[j].eligible :: judged[j].score < judged[i].score)
  }

  lemma {:induction false} RankedHead(judged: seq<TripOption>) returns (i: nat)
    requires judged != []
    ensures i < |judged| && |Sort(NotAfter, judged)| == |judged| && Sort(NotAfter, judged)[0] == judged[i]
    ensures judged[i].eligible ==> FirstBest(judged, i)
    ensures !judged[i].eligible ==> forall j | 0 <= j < |judged| :: !judged[j].eligible
  {
    NotAfterIsOrder();
    SortPermutes(NotAfter, judged);
    i := SortHead(NotAfter, judged);
    forall j | 0 <= j < |judged| ensures NotAfter(judged[i], judged[j]) {
    }
  }

  method HasUnavailableOption(options: seq<TripOption>) returns (found: bool)
    ensures found <==> exists i :: 0 <= i < |options| && options[i].evidence == "unavailable"
  {
    for i := 0 to |options|
      invariant forall k | 0 <= k < i :: options[k].evidence != "unavailable"
    {
      if options[i].evidence == "unavailable" {
        return true;
      }
    }
    found := false;
  }

  lemma SameEvidence(judged: seq<TripOption>, ranked: seq<TripOption>)
    requires forall o :: o in ranked <==> o in judged
    ensures (exists i :: 0 <= i < |judged| && judged[i].evidence == "unavailable") <==>
            (exists i :: 0 <= i < |ranked| && ranked[i].evidence == "unavailable")
  {
    if i :| 0 <= i < |judged| && judged[i].evidence == "unavailable" {
      assert judged[i] in ranked;
    }
    if i :| 0 <= i < |ranked| && ranked[i].evidence == "unavailable" {
      assert ranked[i] in judged;
    }
  }

  method Recommend(judged: seq<TripOption>, status: string, warned: bool, wheelchair: bool) returns (answer: Answer)
    ensures Answers(judged, status, warned, wheelchair, answer)
  {
    var ranked := Sort(NotAfter, judged);
    NotAfterIsOrder();
    SortPermutes(NotAfter, judged);
    SortSorts(NotAfter, judged);
    assert Ranked(ranked) by {
      forall i, j | 0 <= i < j < |ranked| ensures NotAfter(ranked[i], ranked[j]) {
      }
    }
    SortKeepsMembers(NotAfter, judged);
    ghost var first := 0;
    if judged != [] {
      first := RankedHead(judged);
    }
    for i := 0 to |ranked|
      invariant forall k | 0 <= k < i :: !ranked[k].eligible
      invariant i > 0 ==> !judged[first].eligible
    {
      if ranked[i].eligible {
        assert i == 0 by {
          assert ranked[i] in judged;
        }
        return Answer(ranked, Some(ranked[i]), status);
      }
    }
    SameEvidence(judged, ranked);
    var missing := HasUnavailableOption(ranked);
    answer := Answer(ranked, None, if wheelchair || warned || missing then "unavailable" else "not_found");
  }

  /** What a caller may rely on, whatever the options are. */
  ghost predicate Served(r: Request, options: seq<TripOption>, status: string, warned: bool, answer: Answer) {
    match answer.recommended
    case None =>
      && (forall i | 0 <= i < |options| :: !Satisfies(r, Timed(r.departure, options[i])))
      && answer.status in ["unavailable", "not_found"]
      && (answer.status == "not_found" <==>
          !r.wheelchair && !warned && forall i | 0 <= i < |options| :: Known(options[i].evidence))
    case Some(o) => answer.status == status && exists i: nat :: Chosen(r, options, i, o)
  }

  /** Option `i` satisfies every constraint, scores highest among those that do, and comes first among equals. */
  ghost predicate Chosen(r: Request, options: seq<TripOption>, i: nat, o: TripOption) {
    && i < |options| && Satisfies(r, Timed(r.departure, options[i])) && Judged(r, Timed(r.departure, options[i]), o)
    && (forall j | 0 <= j < |options| && Satisfies(r, Timed(r.departure, options[j])) ::
        options[j].score <= options[i].score)
    && (forall j | 0 <= j < i && Satisfies(r, Timed(r.departure, options[j])) :: options[j].score < options[i].score)
  }

  lemma AnswerServes(r: Request, options: seq<TripOption>, judged: seq<TripOption>, status: string, warned: bool,
      answer: Answer)
    requires |judged| == |options| && forall i | 0 <= i < |options| ::
        Judged(r, Timed(r.departure, options[i]), judged[i])
    requires Answers(judged, status, warned, r.wheelchair, answer)
    ensures Served(r, options, status, warned, answer)
  {
    forall i | 0 <= i < |options|
      ensures judged[i].eligible <==> Satisfies(r, Timed(r.departure, options[i]))
      ensures judged[i].score == options[i].score
      ensures judged[i].evidence == "unavailable" <==> !Known(options[i].evidence)
    {
      assert Judged(r, Timed(r.departure, options[i]), judged[i]);
    }
    if answer.recommended.Some? {
      var i: nat :| FirstBest(judged, i) && judged[i] == answer.recommended.value;
      assert Chosen(r, options, i, answer.recommended.value);
    }
  }

  /** The second half of TripOptions: from the options of all modes to the answer. */
  method AnswerTrip(r: Request, options: array<TripOption>, status: string, warned: bool) returns (answer: Answer)
    modifies options
    ensures Served(r, old(options[..]), status, warned, answer)
    ensures forall i | 0 <= i < options.Length :: Judged(r, Timed(r.departure, old(options[i])), options[i])
    ensures multiset(answer.ranked) == multiset(options[..]) && Ranked(answer.ranked)
  {
    ApplyTripTiming(options, r.departure);
    EvaluateTripOptions(options, r);
    answer := Recommend(options[..], status, warned, r.wheelchair);
    AnswerServes(r, old(options[..]), options[..], status, warned, answer);
  }
}
