/** `ReviewManager.calculateNextReview`: the SM-2-style scheduler that maps a
    card and a recall quality to the card's next ease factor, interval and
    review time. The clock reading is the explicit parameter `now`. */
module Scheduler {
  import opened Cards

  /** Milliseconds in a day: 24 * 60 * 60 * 1000. */
  const MillisPerDay: int := 86_400_000

  /** Quality values below this are failures; the screen offers 1 to 4. */
  const PassQuality: int := 3

  /** `coerceIn(1.3f, 2.5f)` on the hundredths scale. */
  function ClampEase(e: int): (r: int)
    ensures MinEase <= r <= MaxEase
    ensures MinEase <= e <= MaxEase ==> r == e
    ensures e < MinEase ==> r == MinEase
    ensures e > MaxEase ==> r == MaxEase
  {
    if e < MinEase then MinEase else if e > MaxEase then MaxEase else e
  }

  /** The new ease factor: 0.2 less on a failure, 0.1 more above the pass
      mark, unchanged at the pass mark; always clamped to [1.3, 2.5]. */
  function NextEase(ease: int, quality: int): (r: int)
    ensures MinEase <= r <= MaxEase
    ensures quality < PassQuality ==> r <= ease - 20 || r == MinEase
    ensures quality > PassQuality ==> r >= ease + 10 || r == MaxEase
    ensures quality == PassQuality && MinEase <= ease <= MaxEase ==> r == ease
  {
    var raw := if quality < PassQuality then ease - 20
               else if quality > PassQuality then ease + 10
               else ease;
    ClampEase(raw)
  }

  /** Integer division rounding toward zero, as the JVM's `Float.toInt()`
      rounds an exact quotient. */
  function TruncDiv(a: int, d: int): (q: int)
    requires d > 0
    ensures a >= 0 ==> q >= 0 && q * d <= a < q * d + d
    ensures a < 0 ==> q <= 0 && q * d >= a > q * d - d
  {
    if a >= 0 then a / d else -((-a) / d)
  }

  /** `Float.toInt()` saturates at the ends of the `Int` range. */
  function SaturateInt32(x: int): (r: Int32)
    ensures MinInt32 <= x <= MaxInt32 ==> r == x
    ensures x > MaxInt32 ==> r == MaxInt32
    ensures x < MinInt32 ==> r == MinInt32
  {
    if x > MaxInt32 then MaxInt32 else if x < MinInt32 then MinInt32 else x
  }

  /** The new interval in days. The geometric branch multiplies the previous
      interval by the card's PREVIOUS ease factor (not the one computed for
      this review) and truncates the product to an `Int`. */
  function NextInterval(interval: Int32, ease: int, quality: int): (r: Int32)
    ensures quality < PassQuality ==> r == 1
    ensures quality >= PassQuality && interval == 0 ==> r == 1
    ensures quality >= PassQuality && interval == 1 ==> r == 6
  {
    if quality < PassQuality then 1
    else if interval == 0 then 1
    else if interval == 1 then 6
    else SaturateInt32(TruncDiv(interval * ease, 100))
  }

  /** The next review instant: `newInterval` whole days after `now`, computed
      at full width. This is the corrected form of the source's expression;
      see `NextReviewAsWritten`. */
  function NextReviewAt(now: int, newInterval: Int32): (r: int)
    ensures (r - now) % MillisPerDay == 0 && (r - now) / MillisPerDay == newInterval
    ensures newInterval >= 1 ==> r > now
  {
    now + newInterval * MillisPerDay
  }

  /** Kotlin `Int` multiplication: the exact product reduced into the 32-bit
      range. Reducing once equals reducing after every factor, since the
      reduction is arithmetic modulo 2^32. */
  function WrapInt32(x: int): (r: Int32)
    ensures (r - x) % 0x1_0000_0000 == 0
    ensures MinInt32 <= x <= MaxInt32 ==> r == x
  {
    (x - MinInt32) % 0x1_0000_0000 + MinInt32
  }

  /** The source's `now + (newInterval * 24 * 60 * 60 * 1000L)`: the first
      three products are `Int` products, so the day count in seconds wraps at
      32 bits before the `Long` factor 1000 is applied. */
  function NextReviewAsWritten(now: int, newInterval: Int32): (r: int)
    ensures (r - now) % 1000 == 0
    ensures MinInt32 <= (r - now) / 1000 <= MaxInt32
    ensures ((r - now) / 1000 - newInterval * 86_400) % 0x1_0000_0000 == 0
  {
    now + WrapInt32(newInterval * 86_400) * 1000
  }

  /** The whole review step: `card.copy(...)` with the three new values. */
  function CalculateNextReview(card: Flashcard, quality: int, now: int): (r: Flashcard)
    ensures r.id == card.id && r.englishText == card.englishText
    ensures r.polishTranslation == card.polishTranslation && r.context == card.context
    ensures r.created == card.created
    ensures r.easeFactor == NextEase(card.easeFactor, quality)
    ensures r.interval == NextInterval(card.interval, card.easeFactor, quality)
    ensures r.nextReview == NextReviewAt(now, r.interval)
    ensures MinEase <= r.easeFactor <= MaxEase
    ensures quality < PassQuality ==> r.interval == 1 && r.nextReview == now + MillisPerDay
    ensures WellFormed(card) ==> WellFormed(r) && r.interval >= 1 && r.nextReview > now && !IsDue(r, now)
  {
    var newEase := NextEase(card.easeFactor, quality);
    var newInterval := NextInterval(card.interval, card.easeFactor, quality);
    IntervalGrowsOnSuccess(card.interval, card.easeFactor, quality);
    card.(interval := newInterval, easeFactor := newEase, nextReview := NextReviewAt(now, newInterval))
  }

  /** The three ease branches for a card whose ease is already in range. */
  lemma EaseBranches(ease: int, quality: int)
    requires MinEase <= ease <= MaxEase
    ensures quality < PassQuality ==> NextEase(ease, quality) == if ease - 20 < MinEase then MinEase else ease - 20
    ensures quality == PassQuality ==> NextEase(ease, quality) == ease
    ensures quality > PassQuality ==> NextEase(ease, quality) == if ease + 10 > MaxEase then MaxEase else ease + 10
  {
  }

  /** The geometric branch: for a previous interval of at least 2 the new
      interval is floor(interval * ease) capped at `Int.MAX_VALUE`; with an
      ease of at least 1.0 a successful review never shortens the interval,
      and from a non-negative interval it is always at least one day. */
  lemma IntervalGrowsOnSuccess(interval: Int32, ease: int, quality: int)
    ensures quality >= PassQuality && interval >= 2 && ease >= 0 ==>
      NextInterval(interval, ease, quality) == if interval * ease / 100 > MaxInt32 then MaxInt32 else interval * ease / 100
    ensures quality >= PassQuality && interval >= 0 && ease >= 100 ==> NextInterval(interval, ease, quality) >= interval
    ensures interval >= 0 && ease >= 100 ==> NextInterval(interval, ease, quality) >= 1
  {
  }

  /** One review event: the quality pressed and the instant it was handled. */
  datatype ReviewEvent = ReviewEvent(quality: int, at: int)

  /** A card after a history of reviews, applied in order. */
  function Replay(card: Flashcard, reviews: seq<ReviewEvent>): (r: Flashcard)
    decreases |reviews|
  {
    if reviews == [] then card
    else Replay(CalculateNextReview(card, reviews[0].quality, reviews[0].at), reviews[1..])
  }

  /** However many reviews a card goes through, it keeps its identity, its
      texts and its creation time; a well-formed card stays well-formed, its
      ease stays in [1.3, 2.5], and after at least one review it is scheduled
      strictly after the last review instant. */
  lemma {:induction false} ReplayKeepsWellFormed(card: Flashcard, reviews: seq<ReviewEvent>)
    requires WellFormed(card)
    ensures var r := Replay(card, reviews);
      && WellFormed(r)
      && r.id == card.id && r.englishText == card.englishText
      && r.polishTranslation == card.polishTranslation && r.context == card.context
      && r.created == card.created
      && (reviews != [] ==> r.interval >= 1 && r.nextReview > reviews[|reviews| - 1].at)
    decreases |reviews|
  {
    if reviews != [] {
      var next := CalculateNextReview(card, reviews[0].quality, reviews[0].at);
      ReplayKeepsWellFormed(next, reviews[1..]);
      if |reviews| > 1 {
        assert reviews[1..][|reviews[1..]| - 1] == reviews[|reviews| - 1];
      }
    }
  }

  /** The source's review-time expression agrees with full-width arithmetic
      while the interval is at most 24855 days. */
  lemma AsWrittenAgreesBelowOverflow(now: int, newInterval: Int32)
    requires 0 <= newInterval <= 24855
    ensures NextReviewAsWritten(now, newInterval) == NextReviewAt(now, newInterval)
  {
  }

  /** From 24856 days on, the 32-bit product wraps: an interval of 24856
      days is scheduled about 68 years BEFORE the review instant. */
  lemma DayCountOverflow(now: int)
    ensures NextReviewAsWritten(now, 24856) < now
    ensures NextReviewAt(now, 24856) > now
  {
  }

  /** The overflowing interval is reachable from a newly created card in
      twelve reviews (one failure, eight passes, two perfect answers, one
      pass); the twelfth gets a review time in the past under the source's
      arithmetic, and one 25320 days ahead under the corrected arithmetic. */
  lemma OverflowReachable(en: string, pl: string, now: int)
    ensures var c := Replay(NewCard(en, pl, None, now),
                            [ReviewEvent(2, now), ReviewEvent(3, now), ReviewEvent(3, now), ReviewEvent(3, now),
                             ReviewEvent(3, now), ReviewEvent(3, now), ReviewEvent(3, now), ReviewEvent(3, now),
                             ReviewEvent(3, now), ReviewEvent(4, now), ReviewEvent(4, now)]);
      && c.interval == 10128 && c.easeFactor == 250
      && NextInterval(c.interval, c.easeFactor, 3) == 25320
      && NextReviewAsWritten(now, 25320) < now
      && CalculateNextReview(c, 3, now).nextReview == now + 25320 * MillisPerDay
  {
    var c0 := NewCard(en, pl, None, now);
    var c1 := CalculateNextReview(c0, 2, now);
    assert c1.interval == 1 && c1.easeFactor == 230;
    var c2 := CalculateNextReview(c1, 3, now);
    assert c2.interval == 6 && c2.easeFactor == 230;
    var c3 := CalculateNextReview(c2, 3, now);
    assert c3.interval == 13 && c3.easeFactor == 230;
    var c4 := CalculateNextReview(c3, 3, now);
    assert c4.interval == 29 && c4.easeFactor == 230;
    var c5 := CalculateNextReview(c4, 3, now);
    assert c5.interval == 66 && c5.easeFactor == 230;
    var c6 := CalculateNextReview(c5, 3, now);
    assert c6.interval == 151 && c6.easeFactor == 230;
    var c7 := CalculateNextReview(c6, 3, now);
    assert c7.interval == 347 && c7.easeFactor == 230;
    var c8 := CalculateNextReview(c7, 3, now);
    assert c8.interval == 798 && c8.easeFactor == 230;
    var c9 := CalculateNextReview(c8, 3, now);
    assert c9.interval == 1835 && c9.easeFactor == 230;
    var c10 := CalculateNextReview(c9, 4, now);
    assert c10.interval == 4220 && c10.easeFactor == 240;
    var c11 := CalculateNextReview(c10, 4, now);
    assert c11.interval == 10128 && c11.easeFactor == 250;
    var rs := [ReviewEvent(2, now), ReviewEvent(3, now), ReviewEvent(3, now), ReviewEvent(3, now),
               ReviewEvent(3, now), ReviewEvent(3, now), ReviewEvent(3, now), ReviewEvent(3, now),
               ReviewEvent(3, now), ReviewEvent(4, now), ReviewEvent(4, now)];
    ReplayStep(c0, rs, c1);
    ReplayStep(c1, rs[1..], c2);
    ReplayStep(c2, rs[2..], c3);
    ReplayStep(c3, rs[3..], c4);
    ReplayStep(c4, rs[4..], c5);
    ReplayStep(c5, rs[5..], c6);
    ReplayStep(c6, rs[6..], c7);
    ReplayStep(c7, rs[7..], c8);
    ReplayStep(c8, rs[8..], c9);
    ReplayStep(c9, rs[9..], c10);
    ReplayStep(c10, rs[10..], c11);
    assert rs[11..] == [];
    assert WrapInt32(25320 * 86_400) == 25320 * 86_400 - 0x1_0000_0000;
  }

  lemma ReplayStep(card: Flashcard, reviews: seq<ReviewEvent>, next: Flashcard)
    requires reviews != [] && next == CalculateNextReview(card, reviews[0].quality, reviews[0].at)
    ensures Replay(card, reviews) == Replay(next, reviews[1..])
  {
  }

  /** Worked examples: a new card answered perfectly, a failure, a pass, and
      a perfect answer on a long interval, which grows by the OLD ease factor
      (10 days at 2.0 become 20 days even though the ease rises to 2.1). */
  lemma Examples(card: Flashcard, t: int)
    ensures var a := CalculateNextReview(card.(interval := 0, easeFactor := 250), 4, t);
      a.interval == 1 && a.easeFactor == 250 && a.nextReview == t + 86_400_000
    ensures var b := CalculateNextReview(card.(interval := 6, easeFactor := 200), 2, t);
      b.interval == 1 && b.easeFactor == 180 && b.nextReview == t + 86_400_000
    ensures var c := CalculateNextReview(card.(interval := 6, easeFactor := 200), 3, t);
      c.interval == 12 && c.easeFactor == 200 && c.nextReview == t + 12 * 86_400_000
    ensures var d := CalculateNextReview(card.(interval := 10, easeFactor := 200), 4, t);
      d.interval == 20 && d.easeFactor == 210
  {
  }
}
