/**
 * The SM-2 variant that reschedules a card after each review (`SRSManager`).
 *
 * `Review` is the transition on a card's scheduling state; `UpdateWord` is the
 * in-place update of a `Word` that the app performs, proved to apply `Review`;
 * `GetNextInterval` is the preview shown on each rating button.
 *
 * Ease factors are in hundredths (2.5 is 250, 1.3 is 130, 0.15 is 15). The
 * source multiplies a `Double` and converts back with `Int(_)`, which
 * truncates toward zero; here the products are exact and `TruncDiv` does the
 * truncation: interval x 1.2 is `TruncDiv(interval * 12, 10)`, interval x ease
 * is `TruncDiv(interval * ease, 100)` and interval x ease x 1.3 is
 * `TruncDiv(interval * ease * 13, 1000)`.
 */
module Scheduler {
  import opened Dates
  import opened Cards

  /** The four self-rated recall grades (`SRSEase`). */
  datatype Ease = Again | Hard | Good | Easy {
    /** The label shown on the rating button. */
    function RawValue(): string {
      match this
      case Again => "Again"
      case Hard => "Hard"
      case Good => "Good"
      case Easy => "Easy"
    }
  }

  /** Each button shows a different label. */
  lemma EaseRawValueInjective(a: Ease, b: Ease)
    requires a.RawValue() == b.RawValue()
    ensures a == b
  {
  }

  /** The lowest ease factor a lapse or a hard rating can leave: 1.3. */
  const EaseFloor: int := 130

  function Max(a: int, b: int): int {
    if a >= b then a else b
  }

  /** Euclidean division of a non-negative number brackets it by the quotient. */
  lemma DivBounds(a: int, d: int)
    requires a >= 0 && d > 0
    ensures 0 <= a / d && (a / d) * d <= a < (a / d) * d + d
  {
  }

  /** `Int(Double(a) / Double(d))` with exact arithmetic: the quotient
      truncated toward zero, for either sign of `a`. */
  function TruncDiv(a: int, d: int): (r: int)
    requires d > 0
    ensures a >= 0 ==> 0 <= r && r * d <= a < r * d + d
    ensures a < 0 ==> r <= 0 && r * d - d < a <= r * d
  {
    if a >= 0 then DivBounds(a, d); a / d
    else DivBounds(-a, d); -((-a) / d)
  }

  /** The state a card moves to when it is rated `ease` at instant `now`. */
  function Review(s: SchedulingState, ease: Ease, now: int): (r: SchedulingState)
    ensures r.nextReviewDate == AddDays(now, r.interval)
  {
    match ease
    case Again =>
      SchedulingState(Max(EaseFloor, s.easeFactor - 20), 1, 0, AddDays(now, 1))
    case Hard =>
      var interval := TruncDiv(s.interval * 12, 10);
      SchedulingState(Max(EaseFloor, s.easeFactor - 15), interval, s.repetitions, AddDays(now, interval))
    case Good =>
      var interval :=
        if s.repetitions == 0 then 1
        else if s.repetitions == 1 then 6
        else TruncDiv(s.interval * s.easeFactor, 100);
      SchedulingState(s.easeFactor, interval, s.repetitions + 1, AddDays(now, interval))
    case Easy =>
      var interval :=
        if s.repetitions == 0 then 4
        else TruncDiv(s.interval * s.easeFactor * 13, 1000);
      SchedulingState(s.easeFactor + 15, interval, s.repetitions + 1, AddDays(now, interval))
  }

  /** `updateWord`: reschedules `word` in place; its other fields are untouched. */
  method UpdateWord(word: Word, ease: Ease, now: int)
    modifies word`interval, word`easeFactor, word`repetitions, word`nextReviewDate
    ensures word.Schedule() == Review(old(word.Schedule()), ease, now)
  {
    match ease {
      case Again =>
        word.interval := 1;
        word.easeFactor := Max(EaseFloor, word.easeFactor - 20);
        word.repetitions := 0;
        word.nextReviewDate := AddDays(now, 1);
      case Hard =>
        word.interval := TruncDiv(word.interval * 12, 10);
        word.easeFactor := Max(EaseFloor, word.easeFactor - 15);
        word.nextReviewDate := AddDays(now, word.interval);
      case Good =>
        if word.repetitions == 0 {
          word.interval := 1;
        } else if word.repetitions == 1 {
          word.interval := 6;
        } else {
          word.interval := TruncDiv(word.interval * word.easeFactor, 100);
        }
        word.repetitions := word.repetitions + 1;
        word.nextReviewDate := AddDays(now, word.interval);
      case Easy =>
        if word.repetitions == 0 {
          word.interval := 4;
        } else {
          word.interval := TruncDiv(word.interval * word.easeFactor * 13, 1000);
        }
        word.easeFactor := word.easeFactor + 15;
        word.repetitions := word.repetitions + 1;
        word.nextReviewDate := AddDays(now, word.interval);
    }
  }

  /** `getNextInterval`: rates a fresh copy of `word` and reports the copy's
      new interval. `word` itself is outside the frame, so it is unchanged. */
  method GetNextInterval(word: Word, ease: Ease, now: int) returns (interval: int)
    ensures interval == Review(word.Schedule(), ease, now).interval
  {
    var temp := new Word(
      word.id, word.frontText, word.backText, now,
      language := word.language,
      dateCreated := word.dateCreated,
      nextReviewDate := word.nextReviewDate,
      easeFactor := word.easeFactor,
      interval := word.interval,
      repetitions := word.repetitions);
    UpdateWord(temp, ease, now);
    interval := temp.interval;
  }

  /** The invariant the scheduler keeps: ease at or above the floor, a
      positive interval, a non-negative repetition count. */
  predicate ValidSchedule(s: SchedulingState) {
    s.easeFactor >= EaseFloor && s.interval >= 1 && s.repetitions >= 0
  }

  lemma MulAtLeast(a: int, b: int, c: int)
    requires a >= 0 && b >= c
    ensures a * b >= a * c
  {
    assert a * b - a * c == a * (b - c);
  }

  /** Again: back to the start of the learning curve, due tomorrow, ease down by
      0.2 but not below the floor. */
  lemma AgainRule(s: SchedulingState, now: int)
    ensures var r := Review(s, Again, now);
      r.interval == 1 && r.repetitions == 0 && r.nextReviewDate == AddDays(now, 1) &&
      r.easeFactor >= EaseFloor &&
      (s.easeFactor - 20 >= EaseFloor ==> r.easeFactor == s.easeFactor - 20) &&
      (s.easeFactor - 20 < EaseFloor ==> r.easeFactor == EaseFloor)
  {
  }

  /** Hard: the interval is the old one times 1.2, truncated, so it never
      shrinks; repetitions stay; ease down by 0.15 but not below the floor. */
  lemma HardRule(s: SchedulingState, now: int)
    ensures var r := Review(s, Hard, now);
      r.repetitions == s.repetitions &&
      (s.interval >= 0 ==> 10 * r.interval <= 12 * s.interval < 10 * r.interval + 10) &&
      (s.interval >= 0 ==> r.interval >= s.interval) &&
      r.easeFactor >= EaseFloor &&
      (s.easeFactor - 15 >= EaseFloor ==> r.easeFactor == s.easeFactor - 15) &&
      (s.easeFactor - 15 < EaseFloor ==> r.easeFactor == EaseFloor)
  {
  }

  /** Good: 1 day after the first success, 6 after the second, then the old
      interval times the ease, truncated; one more repetition; ease unchanged. */
  lemma GoodRule(s: SchedulingState, now: int)
    ensures var r := Review(s, Good, now);
      r.repetitions == s.repetitions + 1 && r.easeFactor == s.easeFactor &&
      (s.repetitions == 0 ==> r.interval == 1) &&
      (s.repetitions == 1 ==> r.interval == 6) &&
      (s.repetitions != 0 && s.repetitions != 1 && s.interval >= 0 && s.easeFactor >= 0 ==>
        100 * r.interval <= s.interval * s.easeFactor < 100 * r.interval + 100) &&
      (s.repetitions != 0 && s.repetitions != 1 && s.interval >= 0 && s.easeFactor >= 100 ==>
        r.interval >= s.interval)
  {
    if s.repetitions != 0 && s.repetitions != 1 && s.interval >= 0 && s.easeFactor >= 100 {
      MulAtLeast(s.interval, s.easeFactor, 100);
    }
  }

  /** Easy: 4 days after the first success, then the old interval times the
      ease times 1.3, truncated; one more repetition; ease up by exactly 0.15. */
  lemma EasyRule(s: SchedulingState, now: int)
    ensures var r := Review(s, Easy, now);
      r.repetitions == s.repetitions + 1 && r.easeFactor == s.easeFactor + 15 &&
      (s.repetitions == 0 ==> r.interval == 4) &&
      (s.repetitions != 0 && s.interval >= 0 && s.easeFactor >= 0 ==>
        1000 * r.interval <= s.interval * s.easeFactor * 13 < 1000 * r.interval + 1000) &&
      (s.repetitions != 0 && s.interval >= 0 && s.easeFactor >= EaseFloor ==>
        r.interval >= s.interval)
  {
    if s.repetitions != 0 && s.interval >= 0 && s.easeFactor >= 0 {
      MulAtLeast(s.interval, s.easeFactor, 0);
      if s.easeFactor >= EaseFloor {
        MulAtLeast(s.interval, s.easeFactor, EaseFloor);
      }
    }
  }

  /** Every grade sets the next review to the new interval's number of days
      after `now`, at the same time of day. */
  lemma NextReviewIsNowPlusInterval(s: SchedulingState, ease: Ease, now: int)
    ensures var r := Review(s, ease, now);
      r.nextReviewDate == AddDays(now, r.interval) && Day(r.nextReviewDate) == Day(now) + r.interval
  {
  }

  /** No grade takes the ease factor below the floor once it is at or above it;
      Again and Hard enforce it, Good keeps the ease and Easy raises it. */
  lemma EaseFloorKept(s: SchedulingState, ease: Ease, now: int)
    requires s.easeFactor >= EaseFloor
    ensures Review(s, ease, now).easeFactor >= EaseFloor
  {
  }

  /** From a positive interval and an ease at or above the floor, every grade
      gives a positive interval. */
  lemma IntervalPositive(s: SchedulingState, ease: Ease, now: int)
    requires s.interval >= 1 && s.easeFactor >= EaseFloor
    ensures Review(s, ease, now).interval >= 1
  {
    match ease
    case Again =>
    case Hard => HardRule(s, now);
    case Good => GoodRule(s, now);
    case Easy => EasyRule(s, now);
  }

  /** A reviewed card is next due no sooner than the day after `now`. */
  lemma {:induction false} NextReviewAtLeastTomorrow(s: SchedulingState, ease: Ease, now: int)
    requires s.interval >= 1 && s.easeFactor >= EaseFloor
    ensures Day(Review(s, ease, now).nextReviewDate) >= Day(now) + 1
    ensures Review(s, ease, now).nextReviewDate >= StartOfDay(now) + SecondsPerDay
  {
    IntervalPositive(s, ease, now);
    var r := Review(s, ease, now);
    NextReviewIsNowPlusInterval(s, ease, now);
    assert r.nextReviewDate == now + r.interval * SecondsPerDay;
    MulAtLeast(SecondsPerDay, r.interval, 1);
  }

  /** Every grade keeps the scheduler's invariant. */
  lemma ReviewKeepsValid(s: SchedulingState, ease: Ease, now: int)
    requires ValidSchedule(s)
    ensures ValidSchedule(Review(s, ease, now))
  {
    EaseFloorKept(s, ease, now);
    IntervalPositive(s, ease, now);
  }

  /** The new interval does not depend on when the rating happens, so the
      preview shown before rating is the interval the rating will give. */
  lemma IntervalIgnoresNow(s: SchedulingState, ease: Ease, now: int, later: int)
    ensures Review(s, ease, now).interval == Review(s, ease, later).interval
    ensures Review(s, ease, now).easeFactor == Review(s, ease, later).easeFactor
    ensures Review(s, ease, now).repetitions == Review(s, ease, later).repetitions
  {
  }

  /** One rating in a study history: the grade and the instant it was given. */
  datatype Rating = Rating(ease: Ease, at: int)

  /** The state after a run of ratings, oldest first. */
  function ReviewAll(s: SchedulingState, ratings: seq<Rating>): SchedulingState
    decreases |ratings|
  {
    if ratings == [] then s
    else ReviewAll(Review(s, ratings[0].ease, ratings[0].at), ratings[1..])
  }

  /** However a card is rated, and however often, the invariant holds after
      every rating: ease never below 1.3, interval never below one day. */
  lemma {:induction false} ReviewAllKeepsValid(s: SchedulingState, ratings: seq<Rating>)
    requires ValidSchedule(s)
    ensures ValidSchedule(ReviewAll(s, ratings))
    decreases |ratings|
  {
    if ratings != [] {
      ReviewKeepsValid(s, ratings[0].ease, ratings[0].at);
      ReviewAllKeepsValid(Review(s, ratings[0].ease, ratings[0].at), ratings[1..]);
    }
  }

  /** Worked examples from a new card (ease 2.5, interval 1, no repetitions) at
      instant `now`, and one Hard rating from interval 10 at ease 2.0. */
  lemma Scenarios(now: int)
    ensures var s0 := InitialSchedule(now);
      var g1 := Review(s0, Good, now);
      var g2 := Review(g1, Good, now);
      var g3 := Review(g2, Good, now);
      g1 == SchedulingState(250, 1, 1, AddDays(now, 1)) &&
      g2 == SchedulingState(250, 6, 2, AddDays(now, 6)) &&
      g3 == SchedulingState(250, 15, 3, AddDays(now, 15)) &&
      Review(s0, Easy, now) == SchedulingState(265, 4, 1, AddDays(now, 4)) &&
      Review(s0, Again, now) == SchedulingState(230, 1, 0, AddDays(now, 1))
    ensures forall r: int :: Review(SchedulingState(200, 10, r, now), Hard, now) == SchedulingState(185, 12, r, AddDays(now, 12))
  {
  }
}
