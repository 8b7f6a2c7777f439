/** Scores of trips, and the options that need no provider: walking and driving. */
module TripScore {
  import opened Wrappers
  import opened Text
  import opened StationPairs
  import opened TripChoice

  datatype Weights = Weights(duration: real, reliability: real, disruptions: real, walking: real, availability: real,
      preference: real)

  const DEFAULT_WEIGHTS := Weights(0.35, 0.25, 0.15, 0.10, 0.10, 0.05)

  function Effective(w: Weights): Weights {
    if w.duration + w.reliability + w.disruptions + w.walking + w.availability + w.preference == 0.0 then
        DEFAULT_WEIGHTS else w
  }

  function Max(a: real, b: real): real {
    if a >= b then a else b
  }

  function Min(a: real, b: real): real {
    if a <= b then a else b
  }

  /** What is left of one after this share has been used, and at least nothing. */
  function Left(used: real): real {
    Max(0.0, 1.0 - used)
  }

  function Bounded(x: real): real {
    Min(1.0, Max(0.0, x))
  }

  /** What a trip is scored on. */
  datatype Merits = Merits(duration: int, reliability: real, disruptions: real, walking: int, availability: real)

  function Share(weight: real, merit: real): real {
    weight * merit
  }

  function Weighed(w: Weights, m: Merits): real {
    Share(w.duration, Left(m.duration as real / 5400.0)) + Share(w.reliability, m.reliability)
        + Share(w.disruptions, Left(m.disruptions))
    + Share(w.walking, Left(m.walking as real / 2000.0)) + Share(w.availability, m.availability)
        + Share(w.preference, 0.5)
  }

  function Score(w: Weights, m: Merits): real {
    Bounded(Weighed(Effective(w), m))
  }

  predicate NonNegative(w: Weights) {
    w.duration >= 0.0 && w.reliability >= 0.0 && w.disruptions >= 0.0 && w.walking >= 0.0 && w.availability >= 0.0
        && w.preference >= 0.0
  }

  /** No merit of `a` is worse than that of `b`. */
  predicate NoWorse(a: Merits, b: Merits) {
    && a.duration <= b.duration && a.walking <= b.walking && a.disruptions <= b.disruptions
    && a.reliability >= b.reliability && a.availability >= b.availability
  }

  lemma Scale(w: real, x: real, y: real)
    requires w >= 0.0 && x <= y
    ensures Share(w, x) <= Share(w, y)
  {
  }

  /** Scores lie between 0 and 1, and a trip that is no worse in any respect never scores lower. */
  lemma NoWorseScoresNoLower(w: Weights, a: Merits, b: Merits)
    requires NonNegative(w) && NoWorse(a, b)
    ensures 0.0 <= Score(w, b) <= Score(w, a) <= 1.0
  {
    var v := Effective(w);
    Scale(v.duration, Left(b.duration as real / 5400.0), Left(a.duration as real / 5400.0));
    Scale(v.reliability, b.reliability, a.reliability);
    Scale(v.disruptions, Left(b.disruptions), Left(a.disruptions));
    Scale(v.walking, Left(b.walking as real / 2000.0), Left(a.walking as real / 2000.0));
    Scale(v.availability, b.availability, a.availability);
    assert Weighed(v, b) <= Weighed(v, a);
  }

  /** Merits between 0 and 1, as a trip's reliability and availability are. */
  predicate Sensible(m: Merits) {
    && 0.0 <= m.reliability <= 1.0 && 0.0 <= m.availability <= 1.0 && 0.0 <= m.disruptions
    && 0 <= m.duration && 0 <= m.walking
  }

  /** With a single weight, a trip is scored on that merit alone: nothing is left of the time after an hour and a
      half, nor of the walk after two kilometres. */
  lemma LoneWeight(m: Merits)
    requires Sensible(m)
    ensures Score(Weights(1.0, 0.0, 0.0, 0.0, 0.0, 0.0), m) ==
            if m.duration >= 5400 then 0.0 else 1.0 - m.duration as real / 5400.0
    ensures Score(Weights(0.0, 1.0, 0.0, 0.0, 0.0, 0.0), m) == m.reliability
    ensures Score(Weights(0.0, 0.0, 1.0, 0.0, 0.0, 0.0), m) == if m.disruptions >= 1.0 then 0.0 else 1.0 - m.disruptions
    ensures Score(Weights(0.0, 0.0, 0.0, 1.0, 0.0, 0.0), m) ==
            if m.walking >= 2000 then 0.0 else 1.0 - m.walking as real / 2000.0
    ensures Score(Weights(0.0, 0.0, 0.0, 0.0, 1.0, 0.0), m) == m.availability
    ensures Score(Weights(0.0, 0.0, 0.0, 0.0, 0.0, 1.0), m) == 0.5
  {
  }

  function Sum(w: Weights): real {
    w.duration + w.reliability + w.disruptions + w.walking + w.availability + w.preference
  }

  /** Weights that sum to zero stand for the default ones, which sum to one; others stand for themselves. */
  lemma DefaultWeights(w: Weights, m: Merits)
    ensures Score(w, m) == Bounded(Weighed(if Sum(w) == 0.0 then Weights(0.35, 0.25, 0.15, 0.1, 0.1, 0.05) else w, m))
    ensures NonNegative(w) && Sensible(m) && Sum(w) == 1.0 ==> Score(w, m) == Weighed(w, m)
  {
    Average(w, m);
  }

  /** With nonnegative weights, the weighed merits lie between nothing and the sum of the weights. */
  lemma Average(w: Weights, m: Merits)
    ensures NonNegative(w) && Sensible(m) ==>
      0.0 <= Weighed(w, m) <= Sum(w)
  {
    if NonNegative(w) && Sensible(m) {
      Between(w.duration, Left(m.duration as real / 5400.0));
      Between(w.reliability, m.reliability);
      Between(w.disruptions, Left(m.disruptions));
      Between(w.walking, Left(m.walking as real / 2000.0));
      Between(w.availability, m.availability);
      Between(w.preference, 0.5);
    }
  }

  lemma Between(weight: real, merit: real)
    requires weight >= 0.0 && 0.0 <= merit <= 1.0
    ensures 0.0 <= Share(weight, merit) <= weight
  {
  }

  function Plus(v: Weights, w: Weights): Weights {
    Weights(v.duration + w.duration, v.reliability + w.reliability, v.disruptions + w.disruptions,
            v.walking + w.walking, v.availability + w.availability, v.preference + w.preference)
  }

  lemma Shares(v: real, w: real, merit: real)
    ensures Share(v + w, merit) == Share(v, merit) + Share(w, merit)
  {
  }

  /** The merits are weighed independently: what two weightings give adds up. */
  lemma WeightsAdd(v: Weights, w: Weights, m: Merits)
    ensures Weighed(Plus(v, w), m) == Weighed(v, m) + Weighed(w, m)
  {
    Shares(v.duration, w.duration, Left(m.duration as real / 5400.0));
    Shares(v.reliability, w.reliability, m.reliability);
    Shares(v.disruptions, w.disruptions, Left(m.disruptions));
    Shares(v.walking, w.walking, Left(m.walking as real / 2000.0));
    Shares(v.availability, w.availability, m.availability);
    Shares(v.preference, w.preference, 0.5);
  }

  function Direct(mode: string, score: real, duration: int, walking: int): TripOption {
    TripOption(mode, score, "estimated", false, [], Some(duration), None, None, Some(walking), None, false, None, 0)
  }

  function WalkOption(w: Weights, distance: real): TripOption {
    var duration, walking := Truncated(distance / 1.4), Truncated(distance);
    Direct("walk", Score(w, Merits(duration, 0.95, 0.0, walking, 0.5)), duration, walking)
  }

  function CarOption(w: Weights, distance: real): TripOption {
    var duration := Truncated(distance / 8.0);
    Direct("car", Score(w, Merits(duration, 0.7, 0.2, 0, 0.5)), duration, 0)
  }

  function VelovOption(w: Weights, pair: Pair): TripOption {
    var spaces := Itoa(pair.origin.bikes) + " bikes / " + Itoa(pair.destination.docks) + " docks";
    Direct("velov", Score(w, Merits(pair.duration, 0.75, 0.0, pair.walking, 0.8)), pair.duration,
        pair.walking).(availability := Some(spaces))
  }

  /** Whatever the distance, the reliability, disruptions and availability of the three options are fixed. */
  lemma FixedMerits(distance: real, pair: Pair)
    ensures
      var w := Weights(0.0, 1.0, 0.0, 0.0, 0.0, 0.0);
      WalkOption(w, distance).score == 0.95 && CarOption(w, distance).score == 0.7 && VelovOption(w, pair).score == 0.75
    ensures
      var w := Weights(0.0, 0.0, 1.0, 0.0, 0.0, 0.0);
      WalkOption(w, distance).score == 1.0 && CarOption(w, distance).score == 0.8 && VelovOption(w, pair).score == 1.0
    ensures
      var w := Weights(0.0, 0.0, 0.0, 0.0, 1.0, 0.0);
      WalkOption(w, distance).score == 0.5 && CarOption(w, distance).score == 0.5 && VelovOption(w, pair).score == 0.8
  {
  }

  /** When an option that needs no provider is within the walking limit and in time, and no wheelchair is asked for,
      something is recommended, and nothing that scores below that option. */
  lemma DirectIsAFallback(r: Request, options: seq<TripOption>, status: string, warned: bool, answer: Answer, i: nat,
                          mode: string, score: real, duration: int, walking: int)
    requires Served(r, options, status, warned, answer)
    requires i < |options| && options[i] == Direct(mode, score, duration, walking) && mode != "park_and_ride"
    requires walking <= r.maxWalking && !r.wheelchair
    requires r.deadline.Some? ==> r.departure + duration * NANOSECONDS <= r.deadline.value
    ensures answer.recommended.Some? && answer.recommended.value.score >= score
  {
    assert Satisfies(r, Timed(r.departure, options[i]));
    if answer.recommended.Some? {
      var k: nat :| Chosen(r, options, k, answer.recommended.value);
      assert Judged(r, Timed(r.departure, options[k]), answer.recommended.value);
    }
  }

  /** A walk within the limit and in time is a fallback. */
  lemma WalkIsAFallback(r: Request, options: seq<TripOption>, status: string, warned: bool, answer: Answer,
                        w: Weights, distance: real, i: nat)
    requires Served(r, options, status, warned, answer)
    requires i < |options| && options[i] == WalkOption(w, distance)
    requires 0.0 <= distance < r.maxWalking as real + 1.0 && !r.wheelchair
    requires r.deadline.Some? ==> r.departure + Truncated(distance / 1.4) * NANOSECONDS <= r.deadline.value
    ensures answer.recommended.Some? && answer.recommended.value.score >= WalkOption(w, distance).score
  {
    DirectIsAFallback(r, options, status, warned, answer, i, "walk", WalkOption(w, distance).score,
                      Truncated(distance / 1.4), Truncated(distance));
  }

  /** So is a car in time, whatever the distance. */
  lemma CarIsAFallback(r: Request, options: seq<TripOption>, status: string, warned: bool, answer: Answer,
                       w: Weights, distance: real, i: nat)
    requires Served(r, options, status, warned, answer)
    requires i < |options| && options[i] == CarOption(w, distance) && r.maxWalking >= 0 && !r.wheelchair
    requires r.deadline.Some? ==> r.departure + Truncated(distance / 8.0) * NANOSECONDS <= r.deadline.value
    ensures answer.recommended.Some? && answer.recommended.value.score >= CarOption(w, distance).score
  {
    DirectIsAFallback(r, options, status, warned, answer, i, "car", CarOption(w, distance).score,
        Truncated(distance / 8.0), 0);
  }

  /** Without a wheelchair, a proposed pair of stations meets every constraint exactly when it meets the deadline. */
  lemma ProposedPairIsEligible(r: Request, q: Search, starts: seq<Station>, ends: seq<Station>, pair: Pair, k: nat,
      l: nat, w: Weights)
    requires Proposes(q, starts, ends, pair, k, l) && q.maxWalking == r.maxWalking && !r.wheelchair
    ensures Satisfies(r, Timed(r.departure, VelovOption(w, pair))) <==>
            (r.deadline.Some? ==> r.departure + Time(q, starts[k], ends[l]) * NANOSECONDS <= r.deadline.value)
  {
  }
}
