/** Properties of the application root's transitions: the selection invariant,
    idempotence of deletion and of failures, and creation undone by deletion. */
module AppProperties {
  import opened Wrappers
  import opened Seqs
  import opened BoardData
  import opened App

  /** Every admissible event keeps a selected board listed. */
  lemma StepPreservesSelectionListed(s: State, e: Event)
    requires SelectionListed(s) && Admissible(s, e)
    ensures SelectionListed(Step(s, e))
  {
    var r := Step(s, e);
    match e
    case BoardClicked(clicked, reply) =>
      if reply.Ok? {
        var i :| 0 <= i < |s.boards| && s.boards[i] == clicked;
        assert r.boards[i].boardId == r.selected.value.boardId;
      }
    case BoardSubmitted(reply) =>
      if reply.Ok? {
        assert r.boards[0].boardId == r.selected.value.boardId;
      }
    case BoardDeleteClicked(id, reply) =>
      if reply.Ok? && r.selected.Some? {
        var i :| 0 <= i < |s.boards| && s.boards[i].boardId == s.selected.value.boardId;
        assert s.boards[i] in r.boards;
        var j :| 0 <= j < |r.boards| && r.boards[j] == s.boards[i];
      }
    case CardSubmitted(reply) =>
      if reply.Ok? && r.selected.Some? {
        var i :| 0 <= i < |s.boards| && s.boards[i].boardId == s.selected.value.boardId;
        assert r.boards[i].boardId == r.selected.value.boardId;
      }
    case CardDeleteClicked(id, reply) =>
      if reply.Ok? && r.selected.Some? {
        var i :| 0 <= i < |s.boards| && s.boards[i].boardId == s.selected.value.boardId;
        assert r.boards[i].boardId == r.selected.value.boardId;
      }
    case _ =>
  }

  /** The invariant holds along every admissible run. */
  lemma {:induction false} RunPreservesSelectionListed(s: State, events: seq<Event>)
    requires SelectionListed(s) && AdmissibleRun(s, events)
    ensures SelectionListed(Run(s, events))
    decreases |events|
  {
    if |events| > 0 {
      StepPreservesSelectionListed(s, events[0]);
      RunPreservesSelectionListed(Step(s, events[0]), events[1..]);
    }
  }

  /** From the state at mount, a selected board is always listed. */
  lemma SelectionAlwaysListed(events: seq<Event>)
    requires AdmissibleRun(Initial, events)
    ensures SelectionListed(Run(Initial, events))
  {
    RunPreservesSelectionListed(Initial, events);
  }

  /** The answer an event carries failed. */
  predicate FailedEvent(e: Event) {
    match e
    case Loaded(reply) => reply.Failed?
    case BoardClicked(_, reply) => reply.Failed?
    case BoardSubmitted(reply) => reply.Failed?
    case CardSubmitted(reply) => reply.Failed?
    case BoardDeleteClicked(_, reply) => reply.Failed?
    case CardDeleteClicked(_, reply) => reply.Failed?
    case AddBoardClicked => false
  }

  /** A failed request shows the error and leaves the board list alone;
      repeating it changes nothing more. Only a failed selection touches the
      selection, which it clears. */
  lemma FailureOnlyShowsError(s: State, e: Event)
    requires FailedEvent(e)
    ensures Step(s, e).error
    ensures Step(s, e).boards == s.boards
    ensures Step(s, e).showAddBoardForm == s.showAddBoardForm
    ensures Step(s, e).selected == if e.BoardClicked? then None else s.selected
    ensures Step(Step(s, e), e) == Step(s, e)
  {
  }

  /** Deleting the same board twice leaves the state as deleting it once. */
  lemma DeleteBoardIdempotent(s: State, boardId: int)
    ensures DeleteBoard(DeleteBoard(s, boardId, Ok(())), boardId, Ok(()))
            == DeleteBoard(s, boardId, Ok(()))
  {
    FilterIdempotent(s.boards, BoardIdIsNot(boardId));
  }

  /** Deleting the same card twice leaves the state as deleting it once. */
  lemma DeleteCardIdempotent(s: State, cardId: int)
    ensures DeleteCard(DeleteCard(s, cardId, Ok(())), cardId, Ok(()))
            == DeleteCard(s, cardId, Ok(()))
  {
    if s.selected.Some? {
      FilterIdempotent(CardsOrEmpty(s.selected.value), CardIdIsNot(cardId));
    }
  }

  /** Creating a board with a fresh id and then deleting it restores the
      board list; the selection, which was the new board, is cleared. */
  lemma AddBoardThenDelete(s: State, b: Board)
    requires !Listed(s.boards, b.boardId)
    ensures DeleteBoard(AddBoard(s, Ok(b)), b.boardId, Ok(())).boards == s.boards
    ensures DeleteBoard(AddBoard(s, Ok(b)), b.boardId, Ok(())).selected == None
  {
    var keep := BoardIdIsNot(b.boardId);
    FilterAppend([b], s.boards, keep);
    assert Filter([b], keep) == [];
  }

  /** Appending a card with a fresh id and then deleting it restores the
      selected board's cards; the board list is untouched throughout. */
  lemma AddCardThenDelete(s: State, c: Card)
    requires s.selected.Some?
    requires forall i :: 0 <= i < |CardsOrEmpty(s.selected.value)| ==>
               CardsOrEmpty(s.selected.value)[i].cardId != c.cardId
    ensures DeleteCard(AddCard(s, Ok(c)), c.cardId, Ok(())).boards == s.boards
    ensures CardsOrEmpty(DeleteCard(AddCard(s, Ok(c)), c.cardId, Ok(())).selected.value)
            == CardsOrEmpty(s.selected.value)
  {
    var keep := CardIdIsNot(c.cardId);
    FilterAppend(CardsOrEmpty(s.selected.value), [c], keep);
    assert Filter([c], keep) == [];
  }
}
