/** The records the backend returns. Field names follow the wire format's
    `board_id`, `card_id` and `likes_count` in camel case. */
module BoardData {
  import opened Wrappers

  /** A card: a short message with a like count, identified by the server. */
  datatype Card = Card(cardId: int, message: string, likesCount: int)

  /** A board. Summaries in the board list carry no `cards`; the copy fetched
      on selection (and one just created) may or may not. */
  datatype Board = Board(boardId: int, title: string, owner: string, cards: Option<seq<Card>>)

  /** `board.cards || []`: an absent card list reads as empty. */
  function CardsOrEmpty(b: Board): (r: seq<Card>)
    ensures b.cards == Some(r) || (b.cards == None && r == [])
  {
    b.cards.GetOr([])
  }

  /** Some board in `boards` carries the id `id`. */
  predicate Listed(boards: seq<Board>, id: int) {
    exists i :: 0 <= i < |boards| && boards[i].boardId == id
  }
}
