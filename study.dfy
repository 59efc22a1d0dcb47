/**
 * The study screen (`StudyView`): which cards are due, which one is shown,
 * and what rating it does.
 *
 * `allWords` is the store's query result, sorted by next review date. The
 * screen recomputes the due list from it whenever it is read; whether a card
 * rated a moment ago has already dropped out of the list when the index is
 * advanced depends on when the store and the view refresh, so `RateWord`
 * takes the due count it sees as an argument.
 */
module Study {
  import opened Wrappers
  import opened Dates
  import opened Cards
  import opened Scheduler

  /** A card is due when the day of its next review is today or earlier. */
  predicate IsDue(nextReviewDate: int, now: int): (r: bool)
    ensures r <==> nextReviewDate < StartOfDay(now) + SecondsPerDay
  {
    NotAfterDayIff(nextReviewDate, now);
    StartOfDay(nextReviewDate) <= StartOfDay(now)
  }

  /** Due means: scheduled before tomorrow begins. So a card dated any time
      today, or on any earlier day, is due, and one dated tomorrow is not. */
  lemma DueIff(nextReviewDate: int, now: int)
    ensures IsDue(nextReviewDate, now) <==> nextReviewDate < StartOfDay(now) + SecondsPerDay
    ensures IsDue(StartOfDay(now), now) && IsDue(now, now)
    ensures !IsDue(StartOfDay(now) + SecondsPerDay, now)
  {
    NotAfterDayIff(nextReviewDate, now);
    NotAfterDayIff(StartOfDay(now) + SecondsPerDay, now);
  }

  /** Anything scheduled no later than a due card is due too. */
  lemma DueMonotone(earlier: int, later: int, now: int)
    requires earlier <= later && IsDue(later, now)
    ensures IsDue(earlier, now)
  {
    DueIff(earlier, now);
    DueIff(later, now);
  }

  /** A card created now with the default schedule is due immediately. */
  lemma NewWordIsDue(now: int)
    ensures IsDue(InitialSchedule(now).nextReviewDate, now)
  {
  }

  /** A card rated now leaves the due set for the rest of the day. */
  lemma RatedNotDue(s: SchedulingState, ease: Ease, now: int)
    requires s.interval >= 1 && s.easeFactor >= EaseFloor
    ensures !IsDue(Review(s, ease, now).nextReviewDate, now)
  {
    NextReviewAtLeastTomorrow(s, ease, now);
    DueIff(Review(s, ease, now).nextReviewDate, now);
  }

  /** `dueWords`: the due cards of `allWords`, in their order. */
  function DueWords(allWords: seq<Word>, now: int): (r: seq<Word>)
    reads allWords
    ensures forall i :: 0 <= i < |r| ==> r[i] in allWords && IsDue(r[i].nextReviewDate, now)
    ensures forall i :: 0 <= i < |allWords| && IsDue(allWords[i].nextReviewDate, now) ==> allWords[i] in r
    ensures |r| <= |allWords|
    decreases |allWords|
  {
    if allWords == [] then []
    else
      (if IsDue(allWords[0].nextReviewDate, now) then [allWords[0]] else [])
      + DueWords(allWords[1..], now)
  }

  /** The filter never adds a card or a copy of one. */
  lemma {:induction false} DueWordsSubMultiset(allWords: seq<Word>, now: int)
    ensures multiset(DueWords(allWords, now)) <= multiset(allWords)
    decreases |allWords|
  {
    if allWords != [] {
      DueWordsSubMultiset(allWords[1..], now);
      assert allWords == [allWords[0]] + allWords[1..];
    }
  }

  /** The filter keeps each due card as many times as the input holds it; with
      `DueWordsSubMultiset` and `DueWords`' own contract this fixes the result
      up to order. */
  lemma {:induction false} DueWordsCounts(allWords: seq<Word>, now: int)
    ensures forall i :: 0 <= i < |allWords| && IsDue(allWords[i].nextReviewDate, now) ==>
      multiset(DueWords(allWords, now))[allWords[i]] == multiset(allWords)[allWords[i]]
    decreases |allWords|
  {
    if allWords != [] {
      var h, t := allWords[0], allWords[1..];
      var r, rt := DueWords(allWords, now), DueWords(t, now);
      DueWordsCounts(t, now);
      DueWordsSubMultiset(t, now);
      assert allWords == [h] + t;
      assert multiset(allWords) == multiset{h} + multiset(t);
      assert multiset(r) == (if IsDue(h.nextReviewDate, now) then multiset{h} else multiset{}) + multiset(rt);
      forall i | 0 <= i < |allWords| && IsDue(allWords[i].nextReviewDate, now)
        ensures multiset(r)[allWords[i]] == multiset(allWords)[allWords[i]]
      {
        var x := allWords[i];
        if x in t {
          var j :| 0 <= j < |t| && t[j] == x;
          assert multiset(rt)[x] == multiset(t)[x];
        } else {
          assert multiset(t)[x] == 0;
        }
      }
    }
  }

  /** `xs` is `ys` with some elements left out and the rest in order. */
  predicate IsSubsequence(xs: seq<Word>, ys: seq<Word>)
    decreases |ys|
  {
    if xs == [] then true
    else if ys == [] then false
    else (xs[0] == ys[0] && IsSubsequence(xs[1..], ys[1..])) || IsSubsequence(xs, ys[1..])
  }

  /** Cards in ascending order of next review date, as the query returns them. */
  ghost predicate SortedByReviewDate(ws: seq<Word>)
    reads ws
  {
    forall i, j :: 0 <= i < j < |ws| ==> ws[i].nextReviewDate <= ws[j].nextReviewDate
  }

  /** The filter keeps the order of the cards it keeps. */
  lemma {:induction false} DueWordsIsSubsequence(allWords: seq<Word>, now: int)
    ensures IsSubsequence(DueWords(allWords, now), allWords)
    decreases |allWords|
  {
    if allWords != [] {
      var rest := DueWords(allWords[1..], now);
      DueWordsIsSubsequence(allWords[1..], now);
      if IsDue(allWords[0].nextReviewDate, now) {
        assert DueWords(allWords, now) == [allWords[0]] + rest;
        assert ([allWords[0]] + rest)[1..] == rest;
      } else {
        assert DueWords(allWords, now) == rest;
      }
    }
  }

  lemma SortedSlice(ws: seq<Word>, lo: nat, hi: nat)
    requires SortedByReviewDate(ws) && lo <= hi <= |ws|
    ensures SortedByReviewDate(ws[lo..hi])
  {
    forall i, j | 0 <= i < j < hi - lo
      ensures ws[lo..hi][i].nextReviewDate <= ws[lo..hi][j].nextReviewDate
    {
      assert ws[lo..hi][i] == ws[lo + i] && ws[lo..hi][j] == ws[lo + j];
    }
  }

  /** A list without a due card has an empty due list. */
  lemma {:induction false} NothingDue(ws: seq<Word>, now: int)
    requires forall j :: 0 <= j < |ws| ==> !IsDue(ws[j].nextReviewDate, now)
    ensures DueWords(ws, now) == []
    decreases |ws|
  {
    if ws != [] {
      assert forall j :: 0 <= j < |ws| - 1 ==> ws[1..][j] == ws[j + 1];
      NothingDue(ws[1..], now);
    }
  }

  /** Once the first card of a sorted list is not due, none after it is. */
  lemma NoneDueAfter(ws: seq<Word>, now: int)
    requires SortedByReviewDate(ws) && ws != [] && !IsDue(ws[0].nextReviewDate, now)
    ensures DueWords(ws[1..], now) == []
  {
    forall j | 0 <= j < |ws| - 1 ensures !IsDue(ws[1..][j].nextReviewDate, now) {
      assert ws[0].nextReviewDate <= ws[j + 1].nextReviewDate;
    }
    NothingDue(ws[1..], now);
  }

  /** Over a list sorted by review date the due cards are exactly a prefix of
      it. */
  lemma {:induction false} SortedDueIsPrefix(allWords: seq<Word>, now: int)
    requires SortedByReviewDate(allWords)
    ensures |DueWords(allWords, now)| <= |allWords|
    ensures DueWords(allWords, now) == allWords[..|DueWords(allWords, now)|]
    decreases |allWords|
  {
    if allWords != [] {
      var rest := DueWords(allWords[1..], now);
      if IsDue(allWords[0].nextReviewDate, now) {
        SortedSlice(allWords, 1, |allWords|);
        SortedDueIsPrefix(allWords[1..], now);
        assert rest == allWords[1..][..|rest|];
        assert DueWords(allWords, now) == [allWords[0]] + rest;
        assert allWords[1..][..|rest|] == allWords[1..|rest| + 1];
        assert [allWords[0]] + allWords[1..|rest| + 1] == allWords[..|rest| + 1];
      } else {
        NoneDueAfter(allWords, now);
      }
    }
  }

  /** Hence the due list keeps the query's ascending order. */
  lemma SortedDueIsSorted(allWords: seq<Word>, now: int)
    requires SortedByReviewDate(allWords)
    ensures SortedByReviewDate(DueWords(allWords, now))
  {
    SortedDueIsPrefix(allWords, now);
    SortedSlice(allWords, 0, |DueWords(allWords, now)|);
  }

  /** `currentWord`: the card at the cursor, or none once the cursor is past
      the last due card. */
  function CurrentWord(dueWords: seq<Word>, index: nat): (r: Option<Word>)
    ensures r.None? <==> index >= |dueWords|
    ensures r.Some? ==> r.value == dueWords[index]
  {
    if index < |dueWords| then Some(dueWords[index]) else None
  }

  /** The cursor step after a rating, given the due count seen at that moment:
      forward by one unless the cursor is on (or past) the last due card. */
  function Advance(index: nat, dueCount: int): (r: nat)
    ensures r == index || r == index + 1
    ensures r == index + 1 <==> index + 1 < dueCount
    ensures r <= Max(index, dueCount - 1)
    ensures index < dueCount ==> r < dueCount
  {
    if index < dueCount - 1 then index + 1 else index
  }

  /** The state the study screen keeps between renders. */
  class StudySession {
    var allWords: seq<Word>
    var currentWordIndex: nat
    var isFlipped: bool

    constructor (allWords: seq<Word>)
      ensures this.allWords == allWords && currentWordIndex == 0 && !isFlipped
    {
      this.allWords := allWords;
      currentWordIndex := 0;
      isFlipped := false;
    }

    /** `currentWord`: the card at the cursor in the due list recomputed at
        `now`, or none once the cursor is past its end. */
    function Current(now: int): (r: Option<Word>)
      reads this, allWords
      ensures r.None? <==> currentWordIndex >= |DueWords(allWords, now)|
      ensures r.Some? ==> r.value == DueWords(allWords, now)[currentWordIndex]
      ensures r.Some? ==> r.value in allWords && IsDue(r.value.nextReviewDate, now)
    {
      CurrentWord(DueWords(allWords, now), currentWordIndex)
    }

    /** The card's `onFlip`: the back is showing, so the rating buttons appear. */
    method Flip()
      modifies this`isFlipped
      ensures isFlipped
    {
      isFlipped := true;
    }

    /** `rateWord`: reschedules exactly the rated card, steps the cursor over
        the `dueCount` cards the screen sees, and turns the next card face
        down. At the same instant, a card that was validly scheduled is no
        longer due. */
    method RateWord(word: Word, ease: Ease, now: int, dueCount: nat)
      modifies word`interval, word`easeFactor, word`repetitions, word`nextReviewDate
      modifies this`currentWordIndex, this`isFlipped
      ensures word.Schedule() == Review(old(word.Schedule()), ease, now)
      ensures currentWordIndex == Advance(old(currentWordIndex), dueCount)
      ensures !isFlipped
      ensures ValidSchedule(old(word.Schedule())) ==> word !in DueWords(allWords, now)
    {
      ghost var before := word.Schedule();
      UpdateWord(word, ease, now);
      if currentWordIndex < dueCount - 1 {
        currentWordIndex := currentWordIndex + 1;
      }
      isFlipped := false;
      if ValidSchedule(before) {
        RatedNotDue(before, ease, now);
      }
    }
  }

  /** `RatingButton.nextInterval`: the days a grade would give the card,
      computed without changing it; at least one day for a valid card. */
  method RatingButtonInterval(word: Word, ease: Ease, now: int) returns (days: int)
    ensures days == Review(word.Schedule(), ease, now).interval
    ensures ValidSchedule(word.Schedule()) ==> days >= 1
  {
    days := GetNextInterval(word, ease, now);
    if ValidSchedule(word.Schedule()) {
      IntervalPositive(word.Schedule(), ease, now);
    }
  }
}
