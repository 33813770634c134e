# Inspiration board client: a Dafny model

This project models the logic of the React client of the inspiration-board
application. Users create boards, select a board, add and delete cards (a
message with a like count), and delete boards. All persistence lives in a REST
backend. The client mirrors the server's answers in local state. The modelled
logic has three parts:

- **The application root** (`src/App.jsx`). It owns a state record: the
  ordered board summaries, the selected board with its cards (or none), an
  error flag and the add-board-form flag. Each handler is a pure function of
  the state and the server's reply: `Reply.Ok(body)` or `Reply.Failed`. The
  handlers are the initial load, board selection, board creation, card
  creation, board deletion, card deletion and the "Add New Board" button.
  Module `App` holds the handlers and the event sequence that drives them.
  `AppProperties` proves the cross-field invariant ("a selected board is
  listed"), idempotence, and creation undone by deletion. `CardHistory`
  proves that the card order is the creation order with deletions removed.
- **The new-board form** (`src/components/NewBoardForm.jsx`). Two text
  fields and a submit that is blocked while either trimmed field is empty.
  Otherwise the submit emits the raw values and clears both fields.
- **The new-card form** (`src/components/NewCardForm.jsx`). A named-field
  update, and a submit that always emits `{message, likes_count:
  parseInt(field) || 0}` and then clears the fields.

Supporting modules:

- `Seqs` models `Array.prototype.filter` and proves order preservation, the
  effect on concatenation, multiplicities, composition and idempotence.
- `JsText` models `String.prototype.trim` and `parseInt` with the radix
  omitted, as ECMA-262 defines them. It covers the full WhiteSpace and
  LineTerminator set and the `0x`/`0X` hexadecimal prefix.
- `BoardData` holds the `Card` and `Board` records.
- `Wrappers` holds `Option`.

Two behaviours of the code are worth noting:

- Board creation clears the error flag when it starts (`src/App.jsx:83`).
  Card creation and the initial load never clear it.
- A negative like count such as `-5` passes through unclamped
  (`src/components/NewCardForm.jsx:22`).

## Model

| member | source | states |
|---|---|---|
| App.LoadBoards | src/App.jsx:19-28 | On success the board list becomes the fetched list. On failure the error is shown and the list is kept. The selection and the form flag never change. |
| App.HandleBoardSelect | src/App.jsx:60-76 | On success the fetched board becomes the selection, the form is hidden and the error is cleared. On failure the selection is cleared and the error is shown. The board list is never touched. |
| App.AddBoard | src/App.jsx:82-99 | On success the created board comes first and the previous boards follow in their order. It becomes the selection, the form is hidden and the error is cleared. A failure only sets the error flag. |
| App.AddCard | src/App.jsx:105-129 | With a selection, its cards become the old cards (absent reads as empty) followed by the new card. Id, title and owner are unchanged. With no selection nothing changes. The board list and the error flag are untouched on success. A failure only sets the error flag. |
| App.DeleteBoard | src/App.jsx:143-161 | On success the list keeps exactly the boards whose id differs, as a subsequence (same order, never longer). Each kept board occurs as often as before, and no board with the deleted id remains. The selection is cleared if and only if its id is the deleted id. Otherwise it is kept. A failure only sets the error flag. |
| App.DeleteCard | src/App.jsx:165-185 | On success the selected board keeps exactly its cards whose id differs, as a subsequence. Each kept card occurs as often as before, and no card with the deleted id remains. Its other fields and the board list are unchanged. Success clears the error flag; with no selection that is the only change. A failure only sets the error flag. |
| App.ShowAddBoardForm | src/App.jsx:214-216 | The add-board form is shown and nothing else changes. |
| AppProperties.StepPreservesSelectionListed | src/App.jsx:60-185 | Every handler keeps a selected board listed in `boards`. For selection this assumes the clicked summary is listed and the server answers with a board of the same id. For the load it assumes the loaded list contains the selected board. |
| AppProperties.RunPreservesSelectionListed | src/App.jsx:60-185 | The selection invariant holds after any admissible sequence of events. |
| AppProperties.SelectionAlwaysListed | src/App.jsx:11-28 | From the state at mount, a selected board is listed after every admissible run. |
| AppProperties.FailureOnlyShowsError | src/App.jsx:24-184 | A failed request sets the error flag and leaves the board list and the form flag unchanged. Only a failed selection changes the selection, clearing it. Repeating the failed request changes nothing more. |
| AppProperties.DeleteBoardIdempotent | src/App.jsx:151-155 | Deleting the same board a second time leaves the state as one deletion left it. |
| AppProperties.DeleteCardIdempotent | src/App.jsx:170-179 | Deleting the same card a second time leaves the state as one deletion left it. |
| AppProperties.AddBoardThenDelete | src/App.jsx:91-155 | Creating a board with a fresh id and then deleting it restores the board list and clears the selection. |
| AppProperties.AddCardThenDelete | src/App.jsx:113-179 | Appending a card with a fresh id and then deleting it restores the selected board's cards. The board list is untouched. |
| CardHistory.ReplayKeepsBoard | src/App.jsx:113-179 | Confirmed card creations and deletions keep the same board selected and never touch the board list. |
| CardHistory.ReplayKeepsCreationOrder | src/App.jsx:113-179 | After any sequence of confirmed card changes, the cards are the earlier cards not deleted, followed by the created cards that no later change deletes, in creation order. |
| CardHistory.ReplayFromEmpty | src/App.jsx:113-179 | From an empty card list, the cards are exactly the surviving creations in creation order. |
| BoardData.CardsOrEmpty | src/App.jsx:121 | `board.cards \|\| []` is the board's card list when it has one, and the empty list when it has none. The same expression appears at `src/App.jsx:177`. |
| Seqs.Filter | src/App.jsx:151 | `filter` keeps exactly the elements that pass the test and never lengthens the sequence. If every element passes, the sequence is unchanged. |
| Seqs.FilterIsSubsequence | src/App.jsx:151 | `filter` never reorders: its result is a subsequence of its input. |
| Seqs.FilterAppend | src/App.jsx:177 | Filtering a concatenation filters each part, so kept elements keep their relative order. |
| Seqs.FilterMultiplicity | src/App.jsx:177 | Every kept value occurs exactly as often as in the input. Every dropped value does not occur. |
| Seqs.FilterCompose | src/App.jsx:177 | Two successive filters equal one filter by the conjunction of their tests. |
| Seqs.FilterIdempotent | src/App.jsx:151 | A second filter with the same test removes nothing. |
| JsText.Trim | src/components/NewBoardForm.jsx:20 | `trim()` returns a contiguous piece of the input with no whitespace at either end. Everything cut away is whitespace. The result is empty exactly when the input is all whitespace. |
| JsText.ParseInt | src/components/NewCardForm.jsx:22 | `parseInt` with the radix omitted gives a number only when a decimal digit follows the leading whitespace and at most one sign. The number is negative only after a `-`. Its exact value is fixed by ParseIntDecimal, ParseIntHexadecimal, ParseIntNaN and ParseIntRoundTrip. |
| JsText.ParseIntDecimal | src/components/NewCardForm.jsx:22 | Whitespace, an optional sign, decimal digits, then a non-digit parse to the signed value of the digits. A lone `0` followed by `x`/`X` is excluded, because that is hexadecimal. |
| JsText.ParseIntHexadecimal | src/components/NewCardForm.jsx:22 | Whitespace, an optional sign, `0x` or `0X`, hexadecimal digits, then a non-digit parse to the signed value of the digits. With no digit after the prefix the result is `NaN`. |
| JsText.ParseIntNaN | src/components/NewCardForm.jsx:22 | Whitespace and an optional sign followed by no digit give `NaN`. After a sign, more whitespace or a second sign also give `NaN`, as in `'- 5'` and `'+-5'`. |
| JsText.ParseIntRoundTrip | src/components/NewCardForm.jsx:22 | `parseInt` of the decimal rendering of any integer gives that integer back. |
| NewBoardForm.HandleTitleChange | src/components/NewBoardForm.jsx:9-11 | The title takes the typed value and the owner is unchanged. |
| NewBoardForm.HandleOwnerChange | src/components/NewBoardForm.jsx:13-15 | The owner takes the typed value and the title is unchanged. |
| NewBoardForm.HandleSubmit | src/components/NewBoardForm.jsx:17-32 | Nothing is emitted if and only if the title or the owner is all whitespace. Then the fields are unchanged. Otherwise exactly one payload is emitted, holding the untrimmed title and owner, and both fields become empty. |
| NewBoardForm.SecondSubmitEmitsNothing | src/components/NewBoardForm.jsx:20-31 | A submit straight after a submit emits nothing and leaves the fields as the first submit left them. |
| NewBoardForm.EmittedIsNotBlank | src/components/NewBoardForm.jsx:20-29 | An emitted title and owner each contain a character that is not whitespace. |
| NewCardForm.HandleChange | src/components/NewCardForm.jsx:11-16 | The field named by the event takes the typed value. The other field is unchanged. |
| NewCardForm.OrEmpty | src/components/NewCardForm.jsx:21 | `message \|\| ''` is the message itself: the empty string is rewritten to itself. |
| NewCardForm.OrZero | src/components/NewCardForm.jsx:22 | `parseInt(...) \|\| 0` is the parsed number, or 0 for `NaN`. It is 0 exactly when the parse gives `NaN` or zero. |
| NewCardForm.LikesCountOf | src/components/NewCardForm.jsx:22 | `parseInt(likes_count) \|\| 0` is 0 when the field holds no number, and the parsed number otherwise. The full value is carried by OrZero, ParseIntDecimal, ParseIntHexadecimal, ParseIntNaN and ParseIntRoundTrip. |
| NewCardForm.HandleSubmit | src/components/NewCardForm.jsx:18-26 | Every submit emits exactly one payload, with no required-field check. The message is as typed. The like count is the parsed number, or 0 when there is none. Both fields become empty. |
| NewCardForm.SubmitsTypedNumber | src/components/NewCardForm.jsx:22 | A like-count field holding the decimal rendering of any integer submits that integer. Negative values are not clamped. |
| NewCardForm.SubmitsZeroWithoutDigits | src/components/NewCardForm.jsx:22 | A like-count field with no digit right after the whitespace and the one optional sign submits 0. This includes whitespace or a second sign after the sign. |
| NewCardForm.LikesCountAfterSign | src/components/NewCardForm.jsx:22 | `'- 5'` and `'+-5'` submit 0: only one sign is read, and nothing is skipped after it. |
| NewCardForm.SubmitsLeadingNumber | src/components/NewCardForm.jsx:22 | A like-count field starting with a number followed by other text submits that number, unless the number is a lone `0` followed by `x` or `X` (a hexadecimal prefix). |
| NewCardForm.LikesCountWithoutNumber | src/components/NewCardForm.jsx:22 | `''`, `'abc'` and `'0x'` submit 0. |
| NewCardForm.LikesCountSigned | src/components/NewCardForm.jsx:22 | `'-5'` submits -5 and `' 7'` submits 7. |
| NewCardForm.LikesCountLeadingNumber | src/components/NewCardForm.jsx:22 | `'12abc'` submits 12. |
| NewCardForm.LikesCountHexadecimal | src/components/NewCardForm.jsx:22 | `'0x1A'` submits 26. |

## Left out

- HTTP calls through axios, the base URL and `console.error`/`console.log` are foreign I/O. Each server answer or failure is a `Reply` parameter of the handler.
- The request bodies of `addBoard` and `addCard`, and the `boardId` argument of `addCard`, only address or fill the request. They do not enter the client state, so the handlers do not take them. The new card is appended to whichever board is selected when the answer arrives.
- React scheduling is not modelled. Each handler's synchronous start (clearing the error) and its completion form one step, so overlapping in-flight requests are not modelled. Examples are two rapid selections, or the load completing after a board was created. The stale read of `selectedBoard` in `deleteBoard` is treated as the current state.
- App.LoadBoards: its effect on the selection invariant assumes that a loaded list contains any board already selected (the `Admissible` condition). The load runs once at mount, when nothing is selected.
- The error message is a JSX element in the code. The model keeps only whether one is shown, as a boolean.
- Rendering is not modelled: the board grid, the selected-board substitution (`src/App.jsx:187-274`), and `Board.jsx`, `CardList.jsx` and `Card.jsx`, which only render and forward callbacks.
- `parseInt` produces a JavaScript number. For digit strings above 2^53 that number is rounded, but the model keeps the exact integer (floating point is left out).
- JavaScript strings are UTF-16 code units, while Dafny strings here are Unicode scalar values. Every character that `trim` and `parseInt` inspect lies in the Basic Multilingual Plane, so the two readings agree.
- The browser's `type="number"` input restricts what can be typed into the like-count field. The model accepts any string.
- `handleChange` in the card form is modelled for the two input names the form renders (`message`, `likes_count`). An event carrying another name would add a third field, which cannot happen.
