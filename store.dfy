/** The `flashcard` table behind `FlashcardDao`, as an in-memory store: rows
    in insertion order, an auto-increment counter for primary keys, and the
    four DAO operations (insert, update by id, lookup by id, due query). */
module CardStore {
  import opened Cards

  /** Why an insert is refused: a row with the explicit primary key exists. */
  datatype StoreError = UniqueConstraintFailed(id: int)

  datatype InsertResult = Inserted(id: int) | Failed(error: StoreError)

  /** No two rows share a primary key. */
  ghost predicate DistinctIds(rows: seq<Flashcard>)
  {
    forall i, j :: 0 <= i < j < |rows| ==> rows[i].id != rows[j].id
  }

  /** Some row has primary key `id`. */
  predicate HasId(rows: seq<Flashcard>, id: int)
  {
    exists i :: 0 <= i < |rows| && rows[i].id == id
  }

  /** The effect of `UPDATE flashcard SET ... WHERE id = card.id`: every row
      with that key becomes `card`, every other row stays. */
  function Replace(rows: seq<Flashcard>, card: Flashcard): (r: seq<Flashcard>)
    ensures |r| == |rows|
    ensures forall i :: 0 <= i < |rows| && rows[i].id != card.id ==> r[i] == rows[i]
    ensures forall i :: 0 <= i < |rows| && rows[i].id == card.id ==> r[i] == card
  {
    seq(|rows|, i requires 0 <= i < |rows| => if rows[i].id == card.id then card else rows[i])
  }

  /** The rows the due query selects, `nextReview <= t`, in table order. */
  function DueRows(rows: seq<Flashcard>, t: int): (r: seq<Flashcard>)
    decreases |rows|
  {
    if rows == [] then []
    else
      var last := rows[|rows| - 1];
      DueRows(rows[..|rows| - 1], t) + (if IsDue(last, t) then [last] else [])
  }

  /** `ORDER BY nextReview`: non-decreasing review instants. */
  ghost predicate SortedByNextReview(s: seq<Flashcard>)
  {
    forall i, j :: 0 <= i < j < |s| ==> s[i].nextReview <= s[j].nextReview
  }

  /** The due rows are exactly the table's rows that are due at `t`. */
  lemma {:induction false} DueRowsMembers(rows: seq<Flashcard>, t: int)
    ensures forall c :: c in DueRows(rows, t) <==> c in rows && IsDue(c, t)
    decreases |rows|
  {
    if rows != [] {
      var init := rows[..|rows| - 1];
      DueRowsMembers(init, t);
      assert rows == init + [rows[|rows| - 1]];
    }
  }

  /** Updating twice with the same card leaves the same table as once. */
  lemma ReplaceIdempotent(rows: seq<Flashcard>, card: Flashcard)
    ensures Replace(Replace(rows, card), card) == Replace(rows, card)
  {
  }

  /** An update keeps the set of primary keys, so keys stay distinct. */
  lemma ReplaceKeepsIds(rows: seq<Flashcard>, card: Flashcard)
    requires DistinctIds(rows)
    ensures forall i :: 0 <= i < |rows| ==> Replace(rows, card)[i].id == rows[i].id
    ensures DistinctIds(Replace(rows, card))
  {
  }

  /** An update of a card that is not due at `t` removes exactly that card's
      row from the due rows at `t` and leaves the others. */
  lemma {:induction false} ReplaceWithNotDue(rows: seq<Flashcard>, card: Flashcard, t: int)
    requires !IsDue(card, t)
    ensures forall c :: c in DueRows(Replace(rows, card), t) <==> c in rows && IsDue(c, t) && c.id != card.id
  {
    DueRowsMembers(rows, t);
    DueRowsMembers(Replace(rows, card), t);
    var r := Replace(rows, card);
    forall c
      ensures c in r && IsDue(c, t) <==> c in rows && IsDue(c, t) && c.id != card.id
    {
      if c in r && IsDue(c, t) {
        var i :| 0 <= i < |r| && r[i] == c;
        assert rows[i].id != card.id;
      }
      if c in rows && IsDue(c, t) && c.id != card.id {
        var i :| 0 <= i < |rows| && rows[i] == c;
        assert r[i] == c;
      }
    }
  }

  class FlashcardTable {
    /** The rows, in insertion order. */
    var rows: seq<Flashcard>
    /** The largest primary key ever stored (SQLite's AUTOINCREMENT
        sequence); generated keys continue from it and are never reused. */
    var lastId: int

    ghost predicate Valid()
      reads this
    {
      && DistinctIds(rows)
      && lastId >= 0
      && (forall i :: 0 <= i < |rows| ==> rows[i].id != 0 && rows[i].id <= lastId)
    }

    constructor ()
      ensures Valid() && rows == [] && lastId == 0
    {
      rows := [];
      lastId := 0;
    }

    /** `insertCard`: a card whose id is 0 gets the next key of the sequence,
        one more than any key ever stored; a card with an explicit key is
        stored under it unless that key is taken, which fails the insert and
        leaves the table unchanged. */
    method InsertCard(card: Flashcard) returns (res: InsertResult)
      requires Valid()
      modifies this
      ensures Valid()
      ensures card.id == 0 ==>
        && res == Inserted(old(lastId) + 1)
        && !HasId(old(rows), res.id)
        && rows == old(rows) + [card.(id := res.id)]
        && lastId == res.id
      ensures card.id != 0 && HasId(old(rows), card.id) ==>
        res == Failed(UniqueConstraintFailed(card.id)) && rows == old(rows) && lastId == old(lastId)
      ensures card.id != 0 && !HasId(old(rows), card.id) ==>
        && res == Inserted(card.id)
        && rows == old(rows) + [card]
        && lastId == if card.id > old(lastId) then card.id else old(lastId)
    {
      if card.id == 0 {
        var id := lastId + 1;
        rows := rows + [card.(id := id)];
        lastId := id;
        res := Inserted(id);
      } else {
        var existing := GetCardById(card.id);
        if existing.Some? {
          res := Failed(UniqueConstraintFailed(card.id));
        } else {
          rows := rows + [card];
          if card.id > lastId {
            lastId := card.id;
          }
          res := Inserted(card.id);
        }
      }
    }

    /** `updateCard`: the row with the card's key becomes the card; with no
        such row nothing changes (an `@Update` that matches no row is not an
        error). */
    method UpdateCard(card: Flashcard)
      requires Valid()
      modifies this
      ensures Valid()
      ensures rows == Replace(old(rows), card) && lastId == old(lastId)
    {
      ghost var before := rows;
      ReplaceKeepsIds(before, card);
      var i := 0;
      while i < |rows|
        invariant 0 <= i <= |rows| == |before|
        invariant lastId == old(lastId)
        invariant forall j :: 0 <= j < i ==> rows[j] == Replace(before, card)[j]
        invariant forall j :: i <= j < |rows| ==> rows[j] == before[j]
      {
        if rows[i].id == card.id {
          rows := rows[i := card];
        }
        i := i + 1;
      }
      assert rows == Replace(before, card);
    }

    /** `getCardById`: the row with that key, or `None` when there is none. */
    method GetCardById(id: int) returns (r: Option<Flashcard>)
      ensures r.Some? ==> r.value in rows && r.value.id == id
      ensures r.None? <==> !HasId(rows, id)
    {
      var i := 0;
      while i < |rows|
        invariant 0 <= i <= |rows|
        invariant forall j :: 0 <= j < i ==> rows[j].id != id
      {
        if rows[i].id == id {
          return Some(rows[i]);
        }
        i := i + 1;
      }
      return None;
    }

    /** `getDueCards`, read once at instant `currentTime`: exactly the rows
        due at that instant, each as often as it is stored, in
        non-decreasing `nextReview` order. Rows with equal `nextReview` keep
        table order. */
    method GetDueCards(currentTime: int) returns (due: seq<Flashcard>)
      ensures SortedByNextReview(due)
      ensures multiset(due) == multiset(DueRows(rows, currentTime))
      ensures forall c :: c in due <==> c in rows && IsDue(c, currentTime)
    {
      due := [];
      var i := 0;
      while i < |rows|
        invariant 0 <= i <= |rows|
        invariant SortedByNextReview(due)
        invariant multiset(due) == multiset(DueRows(rows[..i], currentTime))
      {
        assert rows[..i + 1][..i] == rows[..i];
        if IsDue(rows[i], currentTime) {
          due := InsertByNextReview(due, rows[i]);
        }
        i := i + 1;
      }
      assert rows[..i] == rows;
      DueRowsMembers(rows, currentTime);
      forall c
        ensures c in due <==> c in DueRows(rows, currentTime)
      {
        assert c in due <==> c in multiset(due);
      }
    }
  }

  /** Inserts `c` after every element whose `nextReview` is not later, so the
      order stays sorted and equal keys keep their arrival order. */
  method InsertByNextReview(s: seq<Flashcard>, c: Flashcard) returns (r: seq<Flashcard>)
    requires SortedByNextReview(s)
    ensures SortedByNextReview(r)
    ensures multiset(r) == multiset(s) + multiset{c}
  {
    var k := 0;
    while k < |s| && s[k].nextReview <= c.nextReview
      invariant 0 <= k <= |s|
      invariant forall j :: 0 <= j < k ==> s[j].nextReview <= c.nextReview
    {
      k := k + 1;
    }
    forall j | k <= j < |s|
      ensures c.nextReview < s[j].nextReview
    {
      assert s[k].nextReview <= s[j].nextReview;
    }
    SortedInsertAt(s, c, k);
    r := s[..k] + [c] + s[k..];
    assert s[..k] + s[k..] == s;
  }

  lemma SortedInsertAt(s: seq<Flashcard>, c: Flashcard, k: nat)
    requires SortedByNextReview(s) && k <= |s|
    requires forall j :: 0 <= j < k ==> s[j].nextReview <= c.nextReview
    requires forall j :: k <= j < |s| ==> c.nextReview < s[j].nextReview
    ensures SortedByNextReview(s[..k] + [c] + s[k..])
  {
  }
}
