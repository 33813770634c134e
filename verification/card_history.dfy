/** The order of a selected board's cards over a sequence of confirmed card
    creations and deletions: the cards are the ones created, in creation
    order, minus those deleted afterwards; nothing is ever reordered. */
module CardHistory {
  import opened Seqs
  import opened BoardData
  import opened App

  /** A confirmed card creation or deletion. */
  datatype CardChange = Created(card: Card) | Deleted(cardId: int)

  /** The root's state after the changes, each run through its handler. */
  function Replay(s: State, changes: seq<CardChange>): State
    decreases |changes|
  {
    if |changes| == 0 then s
    else
      var next := match changes[0]
        case Created(c) => AddCard(s, Ok(c))
        case Deleted(id) => DeleteCard(s, id, Ok(()));
      Replay(next, changes[1..])
  }

  /** The ids the changes delete. */
  function DeletedIds(changes: seq<CardChange>): set<int>
    decreases |changes|
  {
    if |changes| == 0 then {}
    else
      (if changes[0].Deleted? then {changes[0].cardId} else {}) + DeletedIds(changes[1..])
  }

  /** The cards that are not in `ids`. */
  function Without(cards: seq<Card>, ids: set<int>): seq<Card> {
    Filter(cards, (c: Card) => c.cardId !in ids)
  }

  /** Reference order: the created cards in creation order, each kept unless
      a later change deletes its id. */
  function Survivors(changes: seq<CardChange>): seq<Card>
    decreases |changes|
  {
    if |changes| == 0 then []
    else
      match changes[0]
      case Created(c) =>
        (if c.cardId in DeletedIds(changes[1..]) then [] else [c]) + Survivors(changes[1..])
      case Deleted(_) => Survivors(changes[1..])
  }

  /** Replaying changes keeps the selected board selected and leaves the board
      list alone. */
  lemma {:induction false} ReplayKeepsBoard(s: State, changes: seq<CardChange>)
    requires s.selected.Some?
    ensures Replay(s, changes).selected.Some?
    ensures Replay(s, changes).boards == s.boards
    ensures Replay(s, changes).selected.value.boardId == s.selected.value.boardId
    decreases |changes|
  {
    if |changes| > 0 {
      match changes[0]
      case Created(c) => ReplayKeepsBoard(AddCard(s, Ok(c)), changes[1..]);
      case Deleted(id) => ReplayKeepsBoard(DeleteCard(s, id, Ok(())), changes[1..]);
    }
  }

  /** A card appended after `cards` survives a later deletion set unless its
      id is in it. */
  lemma WithoutAppend(cards: seq<Card>, c: Card, ids: set<int>)
    ensures Without(cards + [c], ids) == Without(cards, ids) + (if c.cardId in ids then [] else [c])
  {
    var keep := (x: Card) => x.cardId !in ids;
    FilterAppend(cards, [c], keep);
    assert Filter([c], keep) == if c.cardId in ids then [] else [c];
  }

  /** Deleting one id and later a set of ids is deleting their union. */
  lemma WithoutAfterDelete(cards: seq<Card>, id: int, ids: set<int>)
    ensures Without(Filter(cards, CardIdIsNot(id)), ids) == Without(cards, {id} + ids)
  {
    FilterCompose(cards, CardIdIsNot(id), (x: Card) => x.cardId !in ids,
                  (x: Card) => x.cardId !in {id} + ids);
  }

  /** Replaying the changes on a selected board yields its earlier cards that
      no change deletes, followed by the surviving created cards in creation
      order. */
  lemma {:induction false} ReplayKeepsCreationOrder(s: State, changes: seq<CardChange>)
    requires s.selected.Some?
    ensures Replay(s, changes).selected.Some?
    ensures CardsOrEmpty(Replay(s, changes).selected.value)
            == Without(CardsOrEmpty(s.selected.value), DeletedIds(changes)) + Survivors(changes)
    decreases |changes|
  {
    ReplayKeepsBoard(s, changes);
    var cards := CardsOrEmpty(s.selected.value);
    if |changes| == 0 {
      assert Without(cards, {}) == cards;
    } else {
      var rest := changes[1..];
      var later := DeletedIds(rest);
      match changes[0]
      case Created(c) =>
        var next := AddCard(s, Ok(c));
        ReplayKeepsCreationOrder(next, rest);
        assert CardsOrEmpty(next.selected.value) == cards + [c];
        assert DeletedIds(changes) == later;
        assert Survivors(changes) == (if c.cardId in later then [] else [c]) + Survivors(rest);
        WithoutAppend(cards, c, later);
      case Deleted(id) =>
        var next := DeleteCard(s, id, Ok(()));
        ReplayKeepsCreationOrder(next, rest);
        WithoutAfterDelete(cards, id, later);
    }
  }

  /** Starting from a selected board with no cards, the cards are exactly the
      surviving creations, in creation order. */
  lemma ReplayFromEmpty(s: State, changes: seq<CardChange>)
    requires s.selected.Some? && CardsOrEmpty(s.selected.value) == []
    ensures Replay(s, changes).selected.Some?
    ensures CardsOrEmpty(Replay(s, changes).selected.value) == Survivors(changes)
  {
    ReplayKeepsCreationOrder(s, changes);
    assert Without([], DeletedIds(changes)) == [];
  }
}
