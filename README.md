# Retainly review scheduler in Dafny

Retainly is an Android flashcard app. This project models its review core:

- the `Flashcard` record and its creation defaults (module `Cards`);
- `ReviewManager.calculateNextReview`, the SM-2-style scheduler that gives a
  card a new ease factor, interval and next-review instant from a recall
  quality (module `Scheduler`);
- the `flashcard` table behind `FlashcardDao` as an in-memory class with
  insert, update by id, lookup by id and the due query (module `CardStore`);
- `ReviewViewModel.processReview` and the card cursor of `ReviewScreen`
  (module `Review`).

Modelling conventions:

- The ease factor is kept exactly in hundredths: 2.5 is 250, the steps are
  -20 and +10, and the clamp range is [130, 250].
- Intervals are Kotlin `Int`s (the subset type `Int32`). `Float.toInt()` is
  modelled as truncation toward zero followed by saturation at the `Int`
  range.
- Timestamps are milliseconds as unbounded integers. The clock reading of
  `System.currentTimeMillis()` is the explicit parameter `now`.
- The quality is any integer, as in the source: nothing validates it. The
  screen only offers 1 to 4.

Behaviours that a reader might expect otherwise, kept as the code has them:

- The geometric interval branch multiplies by the card's previous ease
  factor, not the newly computed one (`Scheduler.Examples` shows 10 days at
  2.0 becoming 20 days while the ease rises to 2.1).
- An update whose id matches no row changes nothing and reports nothing; it
  is not a "not found" error.
- The due query orders by `nextReview` only; ties are not ordered by id. The
  in-memory table keeps table order for ties.
- The screen advances its cursor whether or not the write-back succeeded,
  and a failed write-back is swallowed.

## Model

| member | source | states |
|---|---|---|
| Cards.NewCard | android/app/src/main/java/com/example/retainly/Retainly.kt:41-51 | a new card has id 0 (to be generated), interval 0, ease 2.5, `created` = `nextReview` = now, so it is due immediately and well-formed |
| Scheduler.ClampEase | android/app/src/main/java/com/example/retainly/Retainly.kt:98 | `coerceIn(1.3f, 2.5f)`: result in [1.3, 2.5], the value itself when inside, the nearer bound otherwise |
| Scheduler.NextEase | android/app/src/main/java/com/example/retainly/Retainly.kt:94-98 | new ease always in [1.3, 2.5]; on a failure at least 0.2 lower or at the floor, above the pass mark at least 0.1 higher or at the ceiling, at the pass mark unchanged for an in-range ease |
| Scheduler.EaseBranches | android/app/src/main/java/com/example/retainly/Retainly.kt:94-98 | for an in-range ease: max(ease - 0.2, 1.3) on quality < 3, ease on quality 3, min(ease + 0.1, 2.5) on quality > 3 |
| Scheduler.TruncDiv | android/app/src/main/java/com/example/retainly/Retainly.kt:104 | the quotient rounded toward zero, as `toInt()` truncates |
| Scheduler.SaturateInt32 | android/app/src/main/java/com/example/retainly/Retainly.kt:104 | `toInt()` keeps in-range values and saturates at `Int.MIN_VALUE`/`Int.MAX_VALUE` |
| Scheduler.NextInterval | android/app/src/main/java/com/example/retainly/Retainly.kt:100-105 | failure gives 1 day whatever the history; on success interval 0 gives 1 and interval 1 gives 6 |
| Scheduler.IntervalGrowsOnSuccess | android/app/src/main/java/com/example/retainly/Retainly.kt:102-104 | on success with previous interval >= 2 the new interval is floor(interval x previous ease) capped at `Int.MAX_VALUE`; with ease >= 1.0 it never shrinks, and from a non-negative interval it is always >= 1 |
| Scheduler.NextReviewAt | android/app/src/main/java/com/example/retainly/Retainly.kt:110 | the next review is exactly `newInterval` whole days (86,400,000 ms each) after now, strictly later when the interval is positive |
| Scheduler.WrapInt32 | android/app/src/main/java/com/example/retainly/Retainly.kt:110 | Kotlin `Int` product: congruent to the exact value modulo 2^32, equal to it when in range |
| Scheduler.NextReviewAsWritten | android/app/src/main/java/com/example/retainly/Retainly.kt:110 | the source's expression: the day count in seconds is newInterval x 86400 reduced modulo 2^32 into the `Int` range before the factor 1000 is applied |
| Scheduler.CalculateNextReview | android/app/src/main/java/com/example/retainly/Retainly.kt:93-112 | only interval, ease and nextReview change; ease in [1.3, 2.5]; the interval uses the previous ease; a failure gives now + 1 day; a well-formed card stays well-formed and is scheduled strictly after now |
| Scheduler.ReplayKeepsWellFormed | android/app/src/main/java/com/example/retainly/Retainly.kt:93-112 | after any number of reviews a card keeps id, texts and creation time, stays well-formed (ease in [1.3, 2.5], interval >= 0) and is scheduled after the last review |
| Scheduler.AsWrittenAgreesBelowOverflow | android/app/src/main/java/com/example/retainly/Retainly.kt:110 | the source's arithmetic is exact for intervals of at most 24855 days |
| Scheduler.DayCountOverflow | android/app/src/main/java/com/example/retainly/Retainly.kt:110 | an interval of 24856 days is scheduled before now as written, after now when corrected |
| Scheduler.OverflowReachable | android/app/src/main/java/com/example/retainly/Retainly.kt:94-110 | twelve reviews from a new card reach an interval of 25320 days, scheduled in the past as written |
| Scheduler.Examples | android/app/src/main/java/com/example/retainly/Retainly.kt:93-112 | worked cases: new card answered 4, failure at 2.0, pass at 2.0, and growth by the previous ease |
| CardStore.Replace | android/app/src/main/java/com/example/retainly/Retainly.kt:62-63 | an update makes every row with the card's id the card and leaves every other row as it was |
| CardStore.ReplaceIdempotent | android/app/src/main/java/com/example/retainly/Retainly.kt:62-63 | updating twice with the same card equals updating once |
| CardStore.ReplaceKeepsIds | android/app/src/main/java/com/example/retainly/Retainly.kt:62-63 | an update keeps every row's primary key, so keys stay distinct |
| CardStore.DueRowsMembers | android/app/src/main/java/com/example/retainly/Retainly.kt:56 | the due selection holds exactly the stored cards with nextReview <= the query time |
| CardStore.ReplaceWithNotDue | android/app/src/main/java/com/example/retainly/Retainly.kt:56-63 | writing back a card that is not due removes exactly that id from the due selection |
| CardStore.InsertByNextReview | android/app/src/main/java/com/example/retainly/Retainly.kt:56 | inserting into a nextReview-ordered list keeps it ordered and adds exactly that card |
| CardStore.FlashcardTable.constructor | android/app/src/main/java/com/example/retainly/Retainly.kt:69-71 | a new table is empty and its key sequence starts at 0 |
| CardStore.FlashcardTable.InsertCard | android/app/src/main/java/com/example/retainly/Retainly.kt:42-60 | id 0 gets one more than any key ever stored (so not the key of any stored card) and the card is appended; an explicit taken key fails with the table unchanged; keys stay distinct |
| CardStore.FlashcardTable.UpdateCard | android/app/src/main/java/com/example/retainly/Retainly.kt:62-63 | the table becomes `Replace` of the old table; unknown ids change nothing |
| CardStore.FlashcardTable.GetCardById | android/app/src/main/java/com/example/retainly/Retainly.kt:65-66 | returns a stored card with that id, and `None` exactly when no stored card has it |
| CardStore.FlashcardTable.GetDueCards | android/app/src/main/java/com/example/retainly/Retainly.kt:56-57 | exactly the stored cards with nextReview <= currentTime, each as often as stored, in non-decreasing nextReview order |
| Review.NextIndex | android/app/src/main/java/com/example/retainly/Retainly.kt:202-204 | the cursor moves by one exactly when it is not on the last card and stays within [0, size - 1] |
| Review.IndexAfter | android/app/src/main/java/com/example/retainly/Retainly.kt:182-204 | starting at 0, any number of responses keeps the cursor below the list size |
| Review.IndexAfterResponses | android/app/src/main/java/com/example/retainly/Retainly.kt:182-204 | on the screen's fixed snapshot of the due list, after k responses the cursor is at min(k, size - 1): each card of the snapshot is shown once in order, then the last one stays |
| Review.ReviewedCardLeavesDueRows | android/app/src/main/java/com/example/retainly/Retainly.kt:144-156 | a well-formed card reviewed no earlier than the view model's query instant drops out of that query's rows; the other due rows stay |
| Review.LiveListOutrunsCursor | android/app/src/main/java/com/example/retainly/Retainly.kt:145-203 | with the live due list and two due cards, answering the first leaves a one-card list while the cursor moves to index 1 |
| Review.ReviewViewModel.constructor | android/app/src/main/java/com/example/retainly/Retainly.kt:144-145 | the due query's instant is fixed once, when the view model is built |
| Review.ReviewViewModel.DueCards | android/app/src/main/java/com/example/retainly/Retainly.kt:145-146 | exactly the due rows at the fixed instant, each as often as stored, ordered by nextReview |
| Review.ReviewViewModel.ProcessReview | android/app/src/main/java/com/example/retainly/Retainly.kt:152-161 | the scheduled card is written back by id; a failed write leaves the table unchanged and is not reported |
| Review.ReviewScreen.constructor | android/app/src/main/java/com/example/retainly/Retainly.kt:181-182 | the screen holds exactly the due rows at the view model's instant, each as often as stored, ordered by nextReview, and its cursor starts at 0 |
| Review.ReviewScreen.CurrentCard | android/app/src/main/java/com/example/retainly/Retainly.kt:196 | the card shown is one of the due cards |
| Review.ReviewScreen.OnResponse | android/app/src/main/java/com/example/retainly/Retainly.kt:198-205 | the shown card is scheduled and written back, then the cursor follows `NextIndex` whether or not the write succeeded; the key sequence is unchanged |

## Findings

| source | as written | input that shows it | evidently intended | confidence | as-written member | corrected member |
|---|---|---|---|---|---|---|
| android/app/src/main/java/com/example/retainly/Retainly.kt:110 | `newInterval * 24 * 60 * 60` is an `Int` product; only the last factor `1000L` is `Long`, so the seconds count wraps at 2^31 | any new interval of at least 24856 days wraps (24856 days lands about 68 years before now); the qualities 2, 3 x8, 4, 4, 3 from a new card reach 25320 days (25317 under `Float` rounding), which lands about 66.8 years before now | the whole product in `Long`: nextReview = now + newInterval x 86,400,000 | high; not executed | Scheduler.NextReviewAsWritten | Scheduler.NextReviewAt |

`Scheduler.DayCountOverflow` and `Scheduler.OverflowReachable` exhibit the
discrepancy; `Scheduler.CalculateNextReview`, and everything built on it,
uses the corrected `Scheduler.NextReviewAt`.

## Left out

- Room, Hilt/Dagger and the database singleton (Retainly.kt:69-89, 115-136): persistence engine and dependency wiring; only the DAO's logical contract is modelled.
- The live `Flow` of due cards and `stateIn` (Retainly.kt:145-146): the due query is modelled as a one-shot read, and the screen holds a fixed list. The source's list is live instead: each successful write-back moves the reviewed card past the query instant, so the card leaves the list (`Review.ReviewedCardLeavesDueRows`) while the cursor has already moved on. The source therefore skips the card after each reviewed one (with due cards A, B, C it shows C after A and never B), and once two or more cards were due the index at Retainly.kt:196 can point past the end of the shrunken list (two due cards: index 1 against a one-card list, `Review.LiveListOutrunsCursor`). The screen model keeps the fixed snapshot and does not model this re-emission.
- Coroutines, `viewModelScope.launch` and logging (Retainly.kt:152-161): the write-back runs to completion inside `ProcessReview`; an I/O failure is the parameter `ioFailure`.
- Compose rendering, `FlashcardReviewItem`'s reveal state, `MainActivity` and `RetainlyApplication` (Retainly.kt:165-262, 288-312): UI and lifecycle code.
- `RetainlyReceiver` (Retainly.kt:265-286) and ShareActivity.kt: broadcast and share entry points that only build a default card and insert it; `Cards.NewCard` and `InsertCard` cover what they do. The share form's non-blank guard is a UI enablement rule, not part of the card or the table, so it is not a precondition here.
- IEEE `Float` rounding of the ease factor and of `interval * easeFactor` (Retainly.kt:50, 95-98, 104): exact hundredths are used instead, so results can differ from the app where a float product falls just below an integer.
- Cards.NewCard: reads the clock once for both `created` and `nextReview`; the source reads it twice (Retainly.kt:47-48), so there `nextReview` can be a millisecond or so later than `created`.
- 64-bit overflow of `now + ...` and SQLite's largest rowid: they need timestamps or ids near 2^63.
- Concurrent updates to the same row: the store is used by one caller at a time.
