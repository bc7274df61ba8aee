/** The review flow: `ReviewViewModel` (the due query at the instant the view
    model was built, and `processReview`) and the card cursor of
    `ReviewScreen`. */
module Review {
  import opened Cards
  import opened Scheduler
  import opened CardStore

  /** The cursor rule of the response handler: move to the next card unless
      the current one is the last. */
  function NextIndex(index: nat, size: nat): (r: nat)
    requires index < size
    ensures index <= r < size
    ensures r == index + 1 <==> index < size - 1
    ensures r == index <==> index == size - 1
  {
    if index < size - 1 then index + 1 else index
  }

  /** The cursor after `k` responses on a list of `size` cards, starting at 0. */
  function IndexAfter(k: nat, size: nat): (r: nat)
    requires size > 0
    ensures r < size
  {
    if k == 0 then 0 else NextIndex(IndexAfter(k - 1, size), size)
  }

  /** After `k` responses the cursor is at min(k, size - 1): every card is
      shown once, in list order, and the cursor then stays on the last one. */
  lemma {:induction false} IndexAfterResponses(k: nat, size: nat)
    requires size > 0
    ensures IndexAfter(k, size) == if k < size - 1 then k else size - 1
  {
    if k > 0 {
      IndexAfterResponses(k - 1, size);
    }
  }

  /** Once a well-formed card is reviewed at an instant no earlier than the
      due query's instant `t`, its row drops out of the rows due at `t`, and
      every other due row stays. */
  lemma ReviewedCardLeavesDueRows(rows: seq<Flashcard>, card: Flashcard, quality: int, now: int, t: int)
    requires WellFormed(card) && t <= now
    ensures forall c :: c in DueRows(Replace(rows, CalculateNextReview(card, quality, now)), t)
                    <==> c in rows && IsDue(c, t) && c.id != card.id
  {
    ReplaceWithNotDue(rows, CalculateNextReview(card, quality, now), t);
  }

  /** With the live due list: two cards due at `t`; after the first is
      answered and written back at `t`, the list re-read at `t` holds only
      the second, while the cursor has moved to index 1. */
  lemma LiveListOutrunsCursor(a: Flashcard, b: Flashcard, quality: int, t: int)
    requires WellFormed(a) && IsDue(a, t) && IsDue(b, t) && a.id != b.id
    ensures DueRows(Replace([a, b], CalculateNextReview(a, quality, t)), t) == [b]
    ensures NextIndex(0, 2) == 1 && 1 >= |DueRows(Replace([a, b], CalculateNextReview(a, quality, t)), t)|
  {
    var rows := Replace([a, b], CalculateNextReview(a, quality, t));
    assert rows == [CalculateNextReview(a, quality, t), b];
    var r := CalculateNextReview(a, quality, t);
    assert rows[..1] == [r] && [r][..0] == [];
    assert DueRows([r], t) == DueRows([], t) + [];
    assert DueRows(rows, t) == DueRows([r], t) + [b];
  }

  class ReviewViewModel {
    const dao: FlashcardTable
    /** The clock reading taken once, when the view model is built; the due
        query is always evaluated at this instant. */
    const queryTime: int

    constructor (dao: FlashcardTable, now: int)
      ensures this.dao == dao && queryTime == now
    {
      this.dao := dao;
      queryTime := now;
    }

    /** `dueCards`, read once: the table's rows due at `queryTime`, each as
        often as it is stored, ordered by `nextReview`. */
    method DueCards() returns (due: seq<Flashcard>)
      ensures SortedByNextReview(due)
      ensures multiset(due) == multiset(DueRows(dao.rows, queryTime))
      ensures forall c :: c in due <==> c in dao.rows && IsDue(c, queryTime)
    {
      due := dao.GetDueCards(queryTime);
    }

    /** `processReview`: schedules the card at `now` and writes it back. When
        the write fails (`ioFailure`), the failure is swallowed and the table
        is left as it was; nothing reports it. */
    method ProcessReview(card: Flashcard, quality: int, now: int, ioFailure: bool)
      requires dao.Valid()
      modifies dao
      ensures dao.Valid() && dao.lastId == old(dao.lastId)
      ensures dao.rows == if ioFailure then old(dao.rows)
                          else Replace(old(dao.rows), CalculateNextReview(card, quality, now))
    {
      var updatedCard := CalculateNextReview(card, quality, now);
      if !ioFailure {
        dao.UpdateCard(updatedCard);
      }
    }
  }

  class ReviewScreen {
    const viewModel: ReviewViewModel
    /** The due list the screen shows, taken when the screen is built. */
    const dueCards: seq<Flashcard>
    var currentCardIndex: nat

    ghost predicate Valid()
      reads this
    {
      if dueCards == [] then currentCardIndex == 0 else currentCardIndex < |dueCards|
    }

    constructor (viewModel: ReviewViewModel)
      ensures Valid() && this.viewModel == viewModel && currentCardIndex == 0
      ensures SortedByNextReview(dueCards)
      ensures multiset(dueCards) == multiset(DueRows(viewModel.dao.rows, viewModel.queryTime))
      ensures forall c :: c in dueCards <==> c in viewModel.dao.rows && IsDue(c, viewModel.queryTime)
    {
      this.viewModel := viewModel;
      var due := viewModel.DueCards();
      dueCards := due;
      currentCardIndex := 0;
    }

    /** The card on screen, shown only when the list is not empty. */
    function CurrentCard(): (c: Flashcard)
      reads this
      requires Valid() && dueCards != []
      ensures c in dueCards
    {
      dueCards[currentCardIndex]
    }

    /** `onResponse`: hands the card on screen and the quality to
        `processReview`, then advances the cursor unless it is on the last
        card, whether or not the write succeeded. */
    method OnResponse(quality: int, now: int, ioFailure: bool)
      requires Valid() && dueCards != [] && viewModel.dao.Valid()
      modifies this, viewModel.dao
      ensures Valid() && viewModel.dao.Valid()
      ensures viewModel.dao.lastId == old(viewModel.dao.lastId)
      ensures currentCardIndex == NextIndex(old(currentCardIndex), |dueCards|)
      ensures viewModel.dao.rows ==
        if ioFailure then old(viewModel.dao.rows)
        else Replace(old(viewModel.dao.rows), CalculateNextReview(dueCards[old(currentCardIndex)], quality, now))
    {
      var currentCard := dueCards[currentCardIndex];
      viewModel.ProcessReview(currentCard, quality, now, ioFailure);
      if currentCardIndex < |dueCards| - 1 {
        currentCardIndex := currentCardIndex + 1;
      }
    }
  }
}
