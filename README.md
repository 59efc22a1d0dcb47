# korean-srs scheduling core in Dafny

A model of the scheduling heart of the korean-srs vocabulary app, with proofs.
Each card (`Word`) has an ease factor, an interval in days, a repetition count
and a next-review instant. When the user rates a card Again, Hard, Good or Easy,
a four-way SM-2 variant (`SRSManager.updateWord`) reschedules it. The study
screen shows the due cards one at a time. A small language table tags cards
and normalises recognised language codes.

Modules, one per source file, plus two helpers:

- `Wrappers` (`wrappers.dfy`): `Option`, Swift's `T?`.
- `Dates` (`dates.dfy`): instants as whole seconds and calendar days of exactly
  86400 seconds. Gives `StartOfDay` and `AddDays` (day addition that keeps the
  time of day).
- `Cards` (`word.dfy`): the `Word` class with its `init` defaults, and
  `SchedulingState`, the four scheduling fields as a value.
- `Scheduler` (`scheduler.dfy`):
  - `Review` is the transition, stated as a function.
  - `UpdateWord` is the in-place update, proved to apply `Review`.
  - `GetNextInterval` is the preview on a fresh copy.
  - Lemmas cover each grade's rule, the ease floor, interval positivity, the
    next-review date and any run of ratings.
- `Study` (`study.dfy`):
  - the due predicate and the `dueWords` filter;
  - `currentWord`;
  - the cursor step;
  - the screen's state as a class with `rateWord`;
  - the rating-button preview.
- `Languages` (`languages.dfy`): `SupportedLanguage` and its `info` table,
  `from(code:)`, the code-normalising tail of `detectLanguage`, and the two name
  lookups.

Representation choices:

- Ease factors are in hundredths: 2.5 is 250, the floor 1.3 is 130, and
  0.2 / 0.15 are 20 / 15.
- The products use exact integer arithmetic: ×1.2 is `*12/10`, ×ease is
  `*e/100` and ×ease×1.3 is `*e*13/1000`.
- Swift's `Int(Double)` truncates toward zero. `TruncDiv` models that for
  either sign.
- "Now" is a parameter wherever the source calls `Date()`.

What the Swift code does, and the model with it:

- Hard has no floor at 1: `Int(0 * 1.2)` is 0, and `Review` gives 0 too. That
  input is unreachable from a valid card, because intervals never fall below 1
  (`IntervalPositive`).
- Nothing validates a stored state. `updateWord` computes on whatever ease,
  interval and repetition count it is given, and so does `Review`.
- The scheduler mutates the shared `Word` in place, and the preview rates a
  copy. `UpdateWord` and `GetNextInterval` do the same; the pure transition
  `Review` is their specification.
- The filter does not sort. The due list keeps the order of the store's query,
  which is sorted by next review date.

## Model

| member | source | states |
|---|---|---|
| `Dates.StartOfDay` | korean-srs/Views/StudyView.swift:19-21 | start of day is at or before the instant, less than a day before it, and on a day boundary |
| `Dates.AddDays` | korean-srs/Models/SRSManager.swift:33 | adding n days moves the day number by exactly n and keeps the time of day |
| `Cards.InitialSchedule` | korean-srs/Models/Word.swift:29-32 | a new card starts at ease 2.5, interval 1, 0 repetitions, due at its creation instant |
| `Cards.Word.constructor` | korean-srs/Models/Word.swift:23-43 | `init` stores every argument unchanged in the field of the same name |
| `Cards.NewWord` | korean-srs/Models/Word.swift:23-32 | a word built with only its texts gets the initial schedule, language "ko" and creation time now |
| `Scheduler.Ease.RawValue` | korean-srs/Models/SRSManager.swift:10-15 | the four grade labels "Again", "Hard", "Good", "Easy", shown on the rating buttons |
| `Scheduler.EaseRawValueInjective` | korean-srs/Models/SRSManager.swift:10-15 | the four grades have four distinct labels |
| `Scheduler.TruncDiv` | korean-srs/Models/SRSManager.swift:31 | the quotient truncated toward zero: bracketed by the exact quotient on the side of zero, for both signs |
| `Scheduler.Review` | korean-srs/Models/SRSManager.swift:20-57 | the four-way transition; in every branch the next review is now plus the new interval in days (the per-grade rules are the lemmas below) |
| `Scheduler.UpdateWord` | korean-srs/Models/SRSManager.swift:20-58 | the word's four scheduling fields become `Review` of their old values; no other field may change |
| `Scheduler.GetNextInterval` | korean-srs/Models/SRSManager.swift:60-74 | returns the interval `UpdateWord` would give the word, computed on a fresh copy; the word is outside the frame and so unchanged |
| `Scheduler.AgainRule` | korean-srs/Models/SRSManager.swift:22-27 | Again: interval 1, repetitions 0, due now + 1 day, ease down by 0.2 or to exactly 1.3 if that would go lower |
| `Scheduler.HardRule` | korean-srs/Models/SRSManager.swift:29-33 | Hard: interval is trunc(interval × 1.2) and never shrinks for interval ≥ 0; repetitions unchanged; ease down by 0.15, floored at 1.3 |
| `Scheduler.GoodRule` | korean-srs/Models/SRSManager.swift:35-45 | Good: interval 1 after 0 repetitions, 6 after 1, else trunc(interval × ease), which never shrinks for ease ≥ 1; repetitions + 1; ease unchanged |
| `Scheduler.EasyRule` | korean-srs/Models/SRSManager.swift:47-56 | Easy: interval 4 after 0 repetitions, else trunc(interval × ease × 1.3), never shrinking at ease ≥ 1.3; repetitions + 1; ease up by exactly 0.15 |
| `Scheduler.NextReviewIsNowPlusInterval` | korean-srs/Models/SRSManager.swift:22-56 | in every branch the next review is now plus the new interval in days |
| `Scheduler.EaseFloorKept` | korean-srs/Models/SRSManager.swift:20-57 | from ease ≥ 1.3, every grade leaves ease ≥ 1.3 |
| `Scheduler.IntervalPositive` | korean-srs/Models/SRSManager.swift:20-57 | from interval ≥ 1 and ease ≥ 1.3, every grade leaves interval ≥ 1 |
| `Scheduler.NextReviewAtLeastTomorrow` | korean-srs/Models/SRSManager.swift:20-57 | from interval ≥ 1 and ease ≥ 1.3, the next review falls on a later day than now, at or after the start of tomorrow |
| `Scheduler.ReviewKeepsValid` | korean-srs/Models/SRSManager.swift:20-57 | each grade keeps the invariant: ease ≥ 1.3, interval ≥ 1, repetitions ≥ 0 |
| `Scheduler.ReviewAllKeepsValid` | korean-srs/Models/SRSManager.swift:20-57 | the invariant holds after any sequence of ratings at any instants |
| `Scheduler.IntervalIgnoresNow` | korean-srs/Models/SRSManager.swift:60-74 | interval, ease and repetitions after a rating do not depend on the instant, so a preview taken earlier shows what the rating gives |
| `Scheduler.Scenarios` | korean-srs/Models/SRSManager.swift:35-56 | worked examples: Good ×3 from a new card gives intervals 1, 6, 15; Easy gives 4 at ease 2.65; Again gives ease 2.3; Hard from 10 days at 2.0 gives 12 days at 1.85 |
| `Study.IsDue` | korean-srs/Views/StudyView.swift:21 | a card is due iff its next review comes before the start of the day after `now` |
| `Study.DueIff` | korean-srs/Views/StudyView.swift:18-23 | a card is due iff it is dated before the start of tomorrow: the start of today and now are due, the start of tomorrow is not |
| `Study.DueMonotone` | korean-srs/Views/StudyView.swift:21 | a card dated no later than a due card is due |
| `Study.NewWordIsDue` | korean-srs/Models/Word.swift:29 | a card created now with the default schedule is due now |
| `Study.RatedNotDue` | korean-srs/Views/StudyView.swift:121-122 | a validly scheduled card that has just been rated is not due at that instant |
| `Study.DueWords` | korean-srs/Views/StudyView.swift:18-23 | every result card is a due input card, every due input card is in the result, and the result is no longer than the input |
| `Study.DueWordsSubMultiset` | korean-srs/Views/StudyView.swift:20-22 | the filter adds no card and no copy of one |
| `Study.DueWordsCounts` | korean-srs/Views/StudyView.swift:20-22 | each due card is kept exactly as many times as the input holds it |
| `Study.NothingDue` | korean-srs/Views/StudyView.swift:20-22 | a list with no due card gives an empty due list |
| `Study.NoneDueAfter` | korean-srs/Views/StudyView.swift:13-22 | in a date-sorted list whose first card is not due, no later card is due |
| `Study.DueWordsIsSubsequence` | korean-srs/Views/StudyView.swift:20-22 | the due list is an order-preserving subsequence of the query result |
| `Study.SortedDueIsPrefix` | korean-srs/Views/StudyView.swift:13-22 | over the date-sorted query result, the due cards are exactly a prefix of it |
| `Study.SortedDueIsSorted` | korean-srs/Views/StudyView.swift:13-22 | the due list stays ascending by next review date |
| `Study.CurrentWord` | korean-srs/Views/StudyView.swift:25-28 | no card exactly when the index is at or past the due count, otherwise the due card at the index |
| `Study.Advance` | korean-srs/Views/StudyView.swift:129-131 | the index moves up by one iff it is below count − 1, else stays; never above max(index, count − 1); stays in range if it was |
| `Study.StudySession.Current` | korean-srs/Views/StudyView.swift:25-28 | the screen's current card: none iff the cursor is at or past the due list recomputed now, else the due card at the cursor, which is an input card and due |
| `Study.StudySession.constructor` | korean-srs/Views/StudyView.swift:13-16 | the screen starts at the first card, face down |
| `Study.StudySession.Flip` | korean-srs/Views/StudyView.swift:53-55 | flipping the card shows its back |
| `Study.StudySession.RateWord` | korean-srs/Views/StudyView.swift:121-134 | reschedules exactly the rated word by `Review`, steps the index by `Advance` over the due count seen, turns the card face down; a validly scheduled rated card is then not in the due list at that instant |
| `Study.RatingButtonInterval` | korean-srs/Views/StudyView.swift:151-153 | the button label is the interval the grade would give, the word unchanged; at least one day for a valid card |
| `Languages.SupportedLanguage.RawValue` | korean-srs/Services/LanguageDetector.swift:17-30 | each case's two-letter code |
| `Languages.SupportedLanguage.Info` | korean-srs/Services/LanguageDetector.swift:32-61 | the info table; each entry's code equals the case's raw value |
| `Languages.AllCases` | korean-srs/Services/LanguageDetector.swift:17-30 | `allCases`: thirteen entries, every case listed, none twice |
| `Languages.RawValueInjective` | korean-srs/Services/LanguageDetector.swift:17-30 | the thirteen raw values are distinct |
| `Languages.FirstWithCode` | korean-srs/Services/LanguageDetector.swift:64 | finds a listed case with the code, or none exactly when no listed case has it |
| `Languages.From` | korean-srs/Services/LanguageDetector.swift:63-65 | a found case has the code; none exactly when no case has that code |
| `Languages.FromRawValue` | korean-srs/Services/LanguageDetector.swift:63-65 | round trip: looking up a case's raw value gives that case |
| `Languages.SupportedCodes` | korean-srs/Services/LanguageDetector.swift:17-30 | the supported codes are exactly ko, ja, zh, es, fr, de, it, pt, ru, ar, hi, th, vi |
| `Languages.Normalize` | korean-srs/Services/LanguageDetector.swift:83-93 | any "zh…" code becomes "zh"; any other supported code is kept; anything else becomes "ko"; the result is always supported |
| `Languages.NormalizeFixesSupported` | korean-srs/Services/LanguageDetector.swift:83-93 | a supported code is returned unchanged, and normalising is idempotent |
| `Languages.NormalizeExamples` | korean-srs/Services/LanguageDetector.swift:81-85 | "zh-Hans" and "zh-Hant" become "zh"; "ja" stays "ja" |
| `Languages.DetectLanguage` | korean-srs/Services/LanguageDetector.swift:69-94 | none for empty text or no recognised language, otherwise the normalised code, which is supported |
| `Languages.UpperChar` | korean-srs/Services/LanguageDetector.swift:100 | ASCII lower-case letters map to their capitals, all else is kept |
| `Languages.Uppercased` | korean-srs/Services/LanguageDetector.swift:100 | same length, each character upper-cased |
| `Languages.UppercasedIdempotent` | korean-srs/Services/LanguageDetector.swift:100 | upper-cased text has no lower-case ASCII letter, and upper-casing it again changes nothing |
| `Languages.GetLanguageName` | korean-srs/Services/LanguageDetector.swift:96-101 | the English name for a supported code, else the code upper-cased |
| `Languages.GetLanguageNativeName` | korean-srs/Services/LanguageDetector.swift:103-108 | the native name for a supported code, else the code upper-cased |
| `Languages.NamesOfRawValue` | korean-srs/Services/LanguageDetector.swift:96-108 | each case's code shows that case's English and native name |
| `Languages.DetectedHasName` | korean-srs/Services/LanguageDetector.swift:69-108 | a detected code always gets a table name, never the upper-cased fallback |

## Left out

- SwiftUI layout, animation and the views around the core (`AddWordView`, `WordsView`, `FlashcardView`, `ContentView`, the app entry point, the card counter text, button colours, previews): presentation only.
- Persistence: the SwiftData query and `modelContext.save()` in `rateWord` are not modelled. The query result is the `allWords` field, taken as already sorted by next review date.
- `TranslationService` (network fetch, JSON, locale-aware text folding) and `SpeechRecognizer` (audio capture, callbacks): I/O and foreign frameworks.
- `NLLanguageRecognizer`: foreign. Its dominant language is the `dominantLanguage` argument of `DetectLanguage`.
- Calendar: days are fixed 86400-second spans in one fixed zone, with no daylight-saving changes. The `?? Date()` fallback when adding days fails is not modelled, because with day arithmetic on integers the addition cannot fail.
- Clock: every `Date()` reading is the parameter `now`. The one inside `updateWord` and the one in the re-queried `dueWords` are taken to be the same instant. `RatedNotDue` and `RateWord` claim absence from the due list only at that instant.
- Floating point: the ease factor is exact fixed point in hundredths. Where IEEE-754 doubles would round a product or an accumulated ease (such as 2.5 − 0.2 − 0.15) differently, the model is an idealisation.
- Integer width: integers are unbounded. Swift traps on overflow of `repetitions += 1` or of `Int(Double)`; that trap is not modelled.
- UUID generation: ids are abstract numbers passed in.
- GetNextInterval: the temporary copy reuses the word's id instead of a fresh UUID. The copy's id is never read.
- RateWord: the due count the index step sees is an argument. Whether SwiftData has already dropped the rated card from `dueWords` at that moment depends on refresh timing, so no "never skips a card" property is claimed.
- Uppercased: upper-cases ASCII letters only. Swift's `uppercased()` also handles non-ASCII letters and can change the length (ß becomes SS).
- GetLanguageName: for unsupported codes the fallback agrees with Swift only on ASCII codes, through `Uppercased`. Recognised language codes are ASCII.
- GetLanguageNativeName: same ASCII-only fallback as `GetLanguageName`.
