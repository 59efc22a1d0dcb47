/**
 * The card record (`Word`): a word, its translation, its language code and the
 * four fields the scheduler owns. The object is shared by reference and
 * updated in place, so it is a class.
 */
module Cards {
  import opened Dates

  /** An identifier; how UUIDs are generated is not modelled. */
  type Uuid = nat

  /** The initial scheduling state of a new card. The ease factor is kept in
      hundredths, so 250 stands for 2.5. */
  const DefaultEaseFactor: int := 250
  const DefaultInterval: int := 1
  const DefaultRepetitions: int := 0
  /** Language code stored when none is given: Korean. */
  const DefaultLanguage: string := "ko"

  /** The scheduling part of a card, as a value. */
  datatype SchedulingState = SchedulingState(easeFactor: int, interval: int, repetitions: int, nextReviewDate: int)

  /** The schedule every card starts with when it is created at instant `now`. */
  function InitialSchedule(now: int): (s: SchedulingState)
    ensures s.easeFactor == 250 && s.interval == 1 && s.repetitions == 0
    ensures s.nextReviewDate == now
  {
    SchedulingState(DefaultEaseFactor, DefaultInterval, DefaultRepetitions, now)
  }

  class Word {
    var id: Uuid
    var frontText: string
    /** The translation. */
    var backText: string
    var language: string
    /** Instants, in seconds. */
    var dateCreated: int
    var nextReviewDate: int
    /** Ease factor in hundredths. */
    var easeFactor: int
    /** Days until the next review. */
    var interval: int
    /** Number of successful reviews since the last lapse. */
    var repetitions: int

    /** `init`: every argument is stored unchanged. `now` is the instant the
        two `Date()` defaults read. */
    constructor (
      id: Uuid,
      frontText: string,
      backText: string,
      now: int,
      language: string := DefaultLanguage,
      dateCreated: int := now,
      nextReviewDate: int := now,
      easeFactor: int := DefaultEaseFactor,
      interval: int := DefaultInterval,
      repetitions: int := DefaultRepetitions)
      ensures this.id == id && this.frontText == frontText && this.backText == backText
      ensures this.language == language && this.dateCreated == dateCreated
      ensures this.nextReviewDate == nextReviewDate && this.easeFactor == easeFactor
      ensures this.interval == interval && this.repetitions == repetitions
    {
      this.id := id;
      this.frontText := frontText;
      this.backText := backText;
      this.language := language;
      this.dateCreated := dateCreated;
      this.nextReviewDate := nextReviewDate;
      this.easeFactor := easeFactor;
      this.interval := interval;
      this.repetitions := repetitions;
    }

    /** The four scheduling fields, as a value. */
    function Schedule(): SchedulingState
      reads this
    {
      SchedulingState(easeFactor, interval, repetitions, nextReviewDate)
    }
  }

  /** `Word(frontText:backText:)` with every other argument left to its default:
      the card starts from the initial schedule, in Korean, created now. */
  method NewWord(id: Uuid, frontText: string, backText: string, now: int) returns (w: Word)
    ensures w.Schedule() == InitialSchedule(now)
    ensures w.language == "ko" && w.dateCreated == now
    ensures w.id == id && w.frontText == frontText && w.backText == backText
  {
    w := new Word(id, frontText, backText, now);
  }
}
