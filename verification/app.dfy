/** The application root: the state it owns and the transition each of its
    handlers performs. A handler issues one request; its network call is not
    modelled, and the server's answer (or the failure) is a parameter. Each
    function below is the whole handler: the synchronous part at the click
    (clearing the error flag, for every request but the initial load and
    `addCard`) followed by the completion. The "Add New Board" button issues
    no request and leaves the flag alone. */
module App {
  import opened Wrappers
  import opened Seqs
  import opened BoardData

  /** What the server answered: the decoded body, or a request failure (a
      transport error or a non-2xx status, which the client does not tell
      apart). */
  datatype Reply<+T> = Ok(body: T) | Failed

  /** The root's state. `error` stands for the error message being shown. */
  datatype State = State(
    boards: seq<Board>,
    selected: Option<Board>,
    error: bool,
    showAddBoardForm: bool)

  /** The state at mount: no boards, nothing selected, no error, form hidden. */
  const Initial := State([], None, false, false)

  /** The test `deleteBoard` filters the board list with. */
  function BoardIdIsNot(boardId: int): Board -> bool {
    (b: Board) => b.boardId != boardId
  }

  /** The test `deleteCard` filters the selected board's cards with. */
  function CardIdIsNot(cardId: int): Card -> bool {
    (c: Card) => c.cardId != cardId
  }

  /** The cross-field invariant: a selected board also appears in `boards`. */
  predicate SelectionListed(s: State) {
    s.selected.Some? ==> Listed(s.boards, s.selected.value.boardId)
  }

  /** Loading the board list at mount: success replaces the list, failure
      shows the error and keeps the (empty) list. */
  function LoadBoards(s: State, reply: Reply<seq<Board>>): (r: State)
    ensures reply.Ok? ==> r.boards == reply.body && r.error == s.error
    ensures reply.Failed? ==> r.boards == s.boards && r.error
    ensures r.selected == s.selected && r.showAddBoardForm == s.showAddBoardForm
  {
    match reply
    case Ok(list) => s.(boards := list)
    case Failed => s.(error := true)
  }

  /** `handleBoardSelect(board)`: the full board fetched for the clicked summary
      becomes the selection and the add-board form is hidden; on failure the
      selection is cleared and the error shown. The clicked summary only
      addresses the request. */
  function HandleBoardSelect(s: State, clicked: Board, reply: Reply<Board>): (r: State)
    ensures r.boards == s.boards
    ensures reply.Ok? ==> r.selected == Some(reply.body) && !r.showAddBoardForm && !r.error
    ensures reply.Failed? ==> r.selected == None && r.error
                              && r.showAddBoardForm == s.showAddBoardForm
  {
    var started := s.(error := false);
    match reply
    case Ok(full) => started.(selected := Some(full), showAddBoardForm := false)
    case Failed => started.(error := true, selected := None)
  }

  /** `addBoard(data)`: the created board goes to the front of the list, ahead
      of the previous boards in their order, becomes the selection, and the
      form is hidden. The submitted title and owner only go into the request. */
  function AddBoard(s: State, reply: Reply<Board>): (r: State)
    ensures reply.Ok? ==>
              && |r.boards| == |s.boards| + 1
              && r.boards[0] == reply.body
              && r.boards[1..] == s.boards
              && r.selected == Some(reply.body)
              && !r.showAddBoardForm && !r.error
    ensures reply.Failed? ==> r == s.(error := true)
  {
    var started := s.(error := false);
    match reply
    case Ok(created) =>
      started.(boards := [created] + started.boards, selected := Some(created),
               showAddBoardForm := false)
    case Failed => started.(error := true)
  }

  /** `addCard(boardId, card)`: the created card is appended to the cards of
      whichever board is selected when the answer arrives; `boardId` only
      addresses the request. This handler does not clear the error flag. */
  function AddCard(s: State, reply: Reply<Card>): (r: State)
    ensures r.boards == s.boards && r.showAddBoardForm == s.showAddBoardForm
    ensures r.selected.Some? <==> s.selected.Some?
    ensures reply.Ok? ==> r.error == s.error
    ensures reply.Ok? && s.selected.Some? ==>
              var before := s.selected.value;
              var after := r.selected.value;
              && after.boardId == before.boardId
              && after.title == before.title
              && after.owner == before.owner
              && after.cards.Some?
              && CardsOrEmpty(after) == CardsOrEmpty(before) + [reply.body]
    ensures reply.Failed? ==> r == s.(error := true)
  {
    match reply
    case Ok(card) =>
      (match s.selected
       case None => s
       case Some(b) => s.(selected := Some(b.(cards := Some(CardsOrEmpty(b) + [card])))))
    case Failed => s.(error := true)
  }

  /** `deleteBoard(boardId)`: the list keeps exactly the boards with another
      id, in order and with their multiplicities; the selection is cleared
      exactly when it is the deleted board. */
  function DeleteBoard(s: State, boardId: int, reply: Reply<()>): (r: State)
    ensures r.showAddBoardForm == s.showAddBoardForm
    ensures reply.Ok? ==>
              && |r.boards| <= |s.boards|
              && (forall i :: 0 <= i < |r.boards| ==>
                    r.boards[i] in s.boards && r.boards[i].boardId != boardId)
              && (forall i :: 0 <= i < |s.boards| && s.boards[i].boardId != boardId ==>
                    s.boards[i] in r.boards)
              && IsSubsequence(r.boards, s.boards)
              && (forall b :: multiset(r.boards)[b] ==
                    if b.boardId != boardId then multiset(s.boards)[b] else 0)
              && (r.selected.None? <==> s.selected.None? || s.selected.value.boardId == boardId)
              && (r.selected.Some? ==> r.selected == s.selected)
              && !r.error
    ensures reply.Failed? ==> r == s.(error := true)
  {
    var started := s.(error := false);
    match reply
    case Ok(_) =>
      var kept := Filter(started.boards, BoardIdIsNot(boardId));
      FilterIsSubsequence(started.boards, BoardIdIsNot(boardId));
      FilterMultiplicity(started.boards, BoardIdIsNot(boardId));
      if started.selected.Some? && started.selected.value.boardId == boardId then
        started.(boards := kept, selected := None)
      else
        started.(boards := kept)
    case Failed => started.(error := true)
  }

  /** `deleteCard(cardId)`: the selected board keeps exactly its cards with
      another id, in order and with their multiplicities (an absent list
      reads as empty); the error flag is cleared, nothing else changes, and
      without a selection only the error flag is cleared. */
  function DeleteCard(s: State, cardId: int, reply: Reply<()>): (r: State)
    ensures r.boards == s.boards && r.showAddBoardForm == s.showAddBoardForm
    ensures r.selected.Some? <==> s.selected.Some?
    ensures reply.Ok? ==> !r.error
    ensures reply.Ok? && s.selected.Some? ==>
              var before := s.selected.value;
              var after := r.selected.value;
              && after.boardId == before.boardId
              && after.title == before.title
              && after.owner == before.owner
              && after.cards.Some?
              && |CardsOrEmpty(after)| <= |CardsOrEmpty(before)|
              && (forall i :: 0 <= i < |CardsOrEmpty(after)| ==>
                    CardsOrEmpty(after)[i] in CardsOrEmpty(before)
                    && CardsOrEmpty(after)[i].cardId != cardId)
              && (forall i :: 0 <= i < |CardsOrEmpty(before)|
                              && CardsOrEmpty(before)[i].cardId != cardId ==>
                    CardsOrEmpty(before)[i] in CardsOrEmpty(after))
              && IsSubsequence(CardsOrEmpty(after), CardsOrEmpty(before))
              && (forall c :: multiset(CardsOrEmpty(after))[c] ==
                    if c.cardId != cardId then multiset(CardsOrEmpty(before))[c] else 0)
    ensures reply.Failed? ==> r == s.(error := true)
  {
    var started := s.(error := false);
    match reply
    case Ok(_) =>
      (match started.selected
       case None => started
       case Some(b) =>
         FilterIsSubsequence(CardsOrEmpty(b), CardIdIsNot(cardId));
         FilterMultiplicity(CardsOrEmpty(b), CardIdIsNot(cardId));
         var kept := Filter(CardsOrEmpty(b), CardIdIsNot(cardId));
         started.(selected := Some(b.(cards := Some(kept)))))
    case Failed => started.(error := true)
  }

  /** The "Add New Board" button: shows the form and changes nothing else. */
  function ShowAddBoardForm(s: State): (r: State)
    ensures r.showAddBoardForm
    ensures r.boards == s.boards && r.selected == s.selected && r.error == s.error
  {
    s.(showAddBoardForm := true)
  }

  /** One user action together with the server's answer to it. */
  datatype Event =
    | Loaded(boardList: Reply<seq<Board>>)
    | BoardClicked(clicked: Board, fetched: Reply<Board>)
    | BoardSubmitted(createdBoard: Reply<Board>)
    | CardSubmitted(createdCard: Reply<Card>)
    | BoardDeleteClicked(boardId: int, boardDeleted: Reply<()>)
    | CardDeleteClicked(cardId: int, cardDeleted: Reply<()>)
    | AddBoardClicked

  /** The handler an event runs. */
  function Step(s: State, e: Event): State {
    match e
    case Loaded(reply) => LoadBoards(s, reply)
    case BoardClicked(clicked, reply) => HandleBoardSelect(s, clicked, reply)
    case BoardSubmitted(reply) => AddBoard(s, reply)
    case CardSubmitted(reply) => AddCard(s, reply)
    case BoardDeleteClicked(id, reply) => DeleteBoard(s, id, reply)
    case CardDeleteClicked(id, reply) => DeleteCard(s, id, reply)
    case AddBoardClicked => ShowAddBoardForm(s)
  }

  /** What the user interface and a consistent server guarantee about an event:
      a clicked board is one of the listed summaries and the server answers
      with the board of that id; a loaded list contains any board that is
      already selected. */
  predicate Admissible(s: State, e: Event) {
    match e
    case Loaded(reply) =>
      reply.Ok? ==> SelectionListed(s.(boards := reply.body))
    case BoardClicked(clicked, reply) =>
      clicked in s.boards && (reply.Ok? ==> reply.body.boardId == clicked.boardId)
    case _ => true
  }

  /** The state after a sequence of events. */
  function Run(s: State, events: seq<Event>): State
    decreases |events|
  {
    if |events| == 0 then s else Run(Step(s, events[0]), events[1..])
  }

  /** Every event of the sequence is admissible in the state it meets. */
  predicate AdmissibleRun(s: State, events: seq<Event>)
    decreases |events|
  {
    |events| == 0 || (Admissible(s, events[0]) && AdmissibleRun(Step(s, events[0]), events[1..]))
  }
}
