/** The `Flashcard` entity of Retainly and the numeric conventions the
    scheduler and the card table share. */
module Cards {

  /** Kotlin's `Int`: a 32-bit two's-complement integer. */
  const MinInt32: int := -0x8000_0000
  const MaxInt32: int := 0x7fff_ffff
  type Int32 = x: int | -0x8000_0000 <= x <= 0x7fff_ffff

  /** The ease factor is a `Float` in the source; here it is kept exactly, in
      hundredths: 2.5 is 250, 1.3 is 130. */
  const DefaultEase: int := 250
  const MinEase: int := 130
  const MaxEase: int := 250

  datatype Option<T> = None | Some(value: T)

  /** A row of the `flashcard` table. `id` 0 means "not yet assigned" (the
      primary key is auto-generated). Timestamps are milliseconds since the
      epoch. */
  datatype Flashcard = Flashcard(
    id: int,
    englishText: string,
    polishTranslation: string,
    context: Option<string>,
    created: int,
    nextReview: int,
    interval: Int32,
    easeFactor: int)

  /** The scheduling state every card is in from creation on: a non-negative
      interval and an ease factor inside the clamp range. */
  predicate WellFormed(c: Flashcard)
  {
    c.interval >= 0 && MinEase <= c.easeFactor <= MaxEase
  }

  /** A card due for review at instant `t`. */
  predicate IsDue(c: Flashcard, t: int)
  {
    c.nextReview <= t
  }

  /** A card built with the constructor's defaults, the clock read once as
      `now` (both `created` and `nextReview` default to the current time). */
  function NewCard(englishText: string, polishTranslation: string, context: Option<string>, now: int): (c: Flashcard)
    ensures c.id == 0
    ensures c.englishText == englishText && c.polishTranslation == polishTranslation && c.context == context
    ensures WellFormed(c) && c.interval == 0 && c.easeFactor == DefaultEase
    ensures c.created == now && IsDue(c, now) && !IsDue(c, now - 1)
  {
    Flashcard(0, englishText, polishTranslation, context, now, now, 0, DefaultEase)
  }
}
