# Drag-and-drop reordering of the phoenix-trello board view

This project models the reorder logic of `BoardsShowView`, the React view of
one board in phoenix-trello. The board is a sequence of lists. Each list has
an `id`, a `position` and an ordered sequence of cards, and each card has an
`id`, a `list_id` and a `position`. When the user drops a dragged item, the
view does three things:

- it edits the `lists` array, or one or two `cards` arrays, in place with
  `findIndex` and `splice`;
- it computes a new `position` for the dropped item from its new neighbours:
  half the next position at the head, the previous position plus 1024 at the
  tail, and the midpoint otherwise;
- it dispatches an update intent (`{id, list_id, position}` for a card,
  `{id, position}` for a list) to the store.

Modules:

- `Splice`: the array primitives of ECMAScript:
  - `splice(i, 1)` is `Remove`;
  - `splice(start, 0, x)` is `Insert` at `SpliceStart(len, start)`, which
    gives the clamping and the count-from-the-end reading of a negative start;
  - `Map` is not a call of the source: it is the field projection (the ids
    and positions) that the `findIndex` callbacks and the position rule read.
- `Position`: the position ternary, and the order invariant it restores.
- `Board`: the card and list records and the two intents. It also holds the
  `findIndex` lookups, as the recursive function `IndexOf` and the loop
  methods `FindList` and `FindCard`. It defines the board invariant
  `ValidLists`: list ids are unique, and every card id occurs once on the
  whole board.
- `CardDrop` and `ListDrop`: the outcome of a drop as functions of the board
  before it, with the lemmas about those functions:
  - `AfterCardDrop` and `AfterListDrop`: the lists after the drop;
  - `CardDropIntent` and `ListDropIntent`: the intent that is emitted.
- `BoardsShow`: the class `BoardsShowView`. Its field `lists` is the board's
  lists. Its methods `DropCard` and `DropList` replay the handlers'
  lookups and splices in order and are proved against those functions; the
  two unused reads (`targetCard`, `targetList` in the list handler) are left
  out, as noted below.

## Model

| member | source | states |
|---|---|---|
| Splice.SpliceStart | web/static/js/views/boards/show.js:135-138 | The index `splice` acts on: a start in range is used as given, -1 on a non-empty array means before the last element, and out-of-range starts are clamped to the array. |
| Splice.Remove | web/static/js/views/boards/show.js:130 | `splice(i, 1)` is one shorter, keeps the elements before `i`, shifts those after it down by one, and loses exactly one occurrence of `s[i]`. |
| Splice.Insert | web/static/js/views/boards/show.js:135-138 | `splice(i, 0, x)` is one longer, has `x` at `i`, keeps the elements before it, shifts the rest up by one, and gains exactly one occurrence of `x`. |
| Splice.RemoveInsert | web/static/js/views/boards/show.js:160-164 | Removing at the index just inserted at gives back the original sequence, so an insertion changes nothing else. |
| Splice.InsertRemove | web/static/js/views/boards/show.js:130-135 | Putting a removed element back at its index gives back the original sequence. |
| Splice.MoveWithin | web/static/js/views/boards/show.js:130-135 | Removing at `i` and inserting at `t` keeps the length and puts `x` at `t`. The element formerly at `t` ends just before `x` when `i < t` and just after it when `t < i`. The other elements keep their order. |
| Board.IndexOf | web/static/js/views/boards/show.js:120-127 | `findIndex` gives -1 exactly when the id is absent. Otherwise it gives an index holding the id with no earlier index holding it. |
| Board.SameListIndex | web/static/js/views/boards/show.js:120-132 | On any board, two found lookups give the same index exactly when they look up the same id, so the identity test of line 132 is an index comparison. |
| Board.FindList | web/static/js/views/boards/show.js:120 | The linear scan over the lists returns exactly `IndexOf` of their ids. |
| Board.FindCard | web/static/js/views/boards/show.js:122 | The linear scan over a list's cards returns exactly `IndexOf` of their ids. |
| Board.UniqueIndex | web/static/js/views/boards/show.js:141 | With unique ids, looking up the id held at index `k` gives back `k`. |
| Board.CardBagRemoveCard | web/static/js/views/boards/show.js:130 | Splicing a card out of one list removes exactly one occurrence of its id from the board's card ids. |
| Board.CardBagInsertCard | web/static/js/views/boards/show.js:135-138 | Splicing a card into one list adds exactly one occurrence of its id to the board's card ids. |
| Board.CardsDisjoint | web/static/js/views/boards/show.js:120-128 | Under the invariant, a card id found in one list is in no other list. |
| Position.NewPosition | web/static/js/views/boards/show.js:143 | The rule of lines 143 and 168. At the head, with a positive next position, the result lies strictly between 0 and it. At the tail it is above the previous position. In the interior, with increasing neighbours, it lies strictly between them. |
| Position.NewPositionIgnoresOwn | web/static/js/views/boards/show.js:143 | The rule reads only the neighbours: whatever the moved item's stored position, the new one is the same (also line 168). |
| Position.NewPositionKeepsOrder | web/static/js/views/boards/show.js:143 | If the other items are in strictly increasing positive order, giving the moved item its new position makes the whole sequence so, without renumbering any sibling. |
| Position.RemoveKeepsOrder | web/static/js/views/boards/show.js:130 | Taking an item out of an ordered sequence leaves it ordered. |
| Position.BoundaryAllocations | web/static/js/views/boards/show.js:143 | The rule gives 512 before an item at 1024, 2048 after an item at 1024, and 1536 between 1024 and 2048. |
| CardDrop.AfterCardDrop | web/static/js/views/boards/show.js:130-139 | The lists after a card drop keep their number. |
| CardDrop.CardNewIndex | web/static/js/views/boards/show.js:141 | The re-found index of the dragged card lies inside the target list. |
| CardDrop.DropCardWhenEmpty | web/static/js/views/boards/show.js:178-183 | A card dropped on an empty list is forwarded as the intent with its id, list id and position unchanged. |
| CardDrop.CardDropKeepsValid | web/static/js/views/boards/show.js:130-139 | A card drop keeps list ids unique and every card id on the board exactly once: the card is never in two lists and never lost. |
| CardDrop.CardNewIndexIsInsertIndex | web/static/js/views/boards/show.js:141 | Under the invariant, the index found after the drop is the index the card was spliced in at. |
| CardDrop.CrossListCardDrop | web/static/js/views/boards/show.js:120-139 | For a drop onto another list, the card leaves its list and is gone from it, while the other cards of that list keep their order. The card is in the target list exactly once, directly before the target card (or before the last card when the target card is not found). With it taken out, the target list is unchanged. It keeps its old `listId` locally. Both list records keep their `id` and `position`: only their `cards` change. Every other list is untouched. |
| CardDrop.SameListCardDrop | web/static/js/views/boards/show.js:127-135 | For a drop within one list, the list keeps its length and the same cards, and the card ends at the target card's index taken before the removal. It lands directly after the target when it was dragged forward and directly before it when dragged backward. The other cards keep their order, the list record keeps its `id` and `position`, and the other lists are untouched. |
| CardDrop.MoveWithinList | web/static/js/views/boards/show.js:130-135 | The same-list move written with explicit indices has the same shape facts as `SameListCardDrop`. |
| CardDrop.CardIntentRestoresOrder | web/static/js/views/boards/show.js:141-149 | If the source and target lists were in strictly increasing positive order, then so is the target list once the card takes the intent's position, and so is the list the card left. |
| CardDrop.DropOntoEarlierCard | web/static/js/views/boards/show.js:116-152 | Dropping card 3 onto card 2 in `[1@1024, 2@2048, 3@3072]` gives the order `[1, 3, 2]` and the intent `{id: 3, list_id: 7, position: 1536}`. |
| ListDrop.AfterListDrop | web/static/js/views/boards/show.js:158-164 | The board keeps its number of lists. |
| ListDrop.ListNewIndex | web/static/js/views/boards/show.js:166 | The re-found index of the dragged list lies inside the board. |
| ListDrop.ListDropPermutes | web/static/js/views/boards/show.js:158-164 | A list drop is a permutation of the lists, none of them changed. The dragged list sits at the insertion index, and the other lists keep their relative order. |
| ListDrop.ListDropKeepsValid | web/static/js/views/boards/show.js:158-164 | A list drop keeps list ids unique and every card id on the board exactly once. |
| ListDrop.ListNewIndexIsInsertIndex | web/static/js/views/boards/show.js:166 | Under the invariant, the index found after the drop is the index the list was spliced in at. |
| ListDrop.ListDropLandsBeforeTarget | web/static/js/views/boards/show.js:160-164 | The target is looked up after the removal, so a list dropped onto another list that is present always ends directly before it, whichever direction it was dragged in. |
| ListDrop.ListDropOntoItself | web/static/js/views/boards/show.js:160-164 | A list dropped onto itself, or onto an id that is not on the board, goes to the second-to-last place, because the lookup after the removal gives -1. |
| ListDrop.ListIntentRestoresOrder | web/static/js/views/boards/show.js:166-173 | If the lists were in strictly increasing positive order, they are so again once the dragged list takes the intent's position. |
| BoardsShow.BoardsShowView.constructor | web/static/js/views/boards/show.js:117 | The view holds the board's lists, which satisfy the invariant. |
| BoardsShow.BoardsShowView.DropCard | web/static/js/views/boards/show.js:116-152 | The in-place splices leave exactly `AfterCardDrop` of the old lists and keep the invariant. The returned intent is `CardDropIntent`: the card's id, the target list's id, and the position from the re-found index. |
| BoardsShow.BoardsShowView.DropList | web/static/js/views/boards/show.js:154-176 | The in-place splices leave exactly `AfterListDrop` of the old lists and keep the invariant. The returned intent is `ListDropIntent`: the list's id and the position from the re-found index. |

## Left out

- Rendering, UI toggles, channel lifecycle and framework wiring are left out. This covers `render` and its helpers, the add/cancel/edit handlers, the mount and unmount hooks, and the `DragDropContext` and `connect` decorators. They hold no reordering logic.
- `dispatch`, `Actions.updateCard` and `Actions.updateList` are left out: they are imported code that is not part of this model. Each handler returns its intent instead of sending it.
- Positions are `real`. Double rounding is not modelled, nor is the way repeated halving runs out of precision.
- Cards and lists carry only the fields that ordering reads. Titles and other payload fields are left out.
- The code never rebalances positions and does not handle updates from other clients. The model adds neither.
- BoardsShow.BoardsShowView.DropCard: the identity test `sourceList === targetList` is modelled as equal indices. This holds on any board: both indices are first matches of `findIndex` (lines 120, 125), so different indices hold lists with different ids, hence different objects (`Board.SameListIndex`).
- BoardsShow.BoardsShowView.DropCard: `targetCard` (line 128) is read but never used, so it is not modelled.
- BoardsShow.BoardsShowView.DropCard: the method requires what the handler needs in order not to fail (`CardDropAllowed`):
  - the source list and the source card are found;
  - the target list is found;
  - the target list holds at least two cards after the insertion.

  Those paths are not modelled. They do not all fail before anything changes:
  - a missing source list (line 122) or a missing target list (line 127) throws before any splice;
  - a missing source card does not throw at line 123: `splice(-1, 1)` at line 130 removes the source list's last card, which is a different card, lines 135/138 insert the dragged object, and the handler throws only at line 146 on `sourceCard.id`, with the lists already changed;
  - a target list left with fewer than two cards throws at line 143 on the missing neighbour, after both splices.

  A target card that is not found does not throw and is modelled: `splice(-1, 0, card)` puts the card before the last card.
- BoardsShow.BoardsShowView.DropList: the method requires (`ListDropAllowed`) that the source list is found and that the board has at least two lists. Those paths are not modelled, and both throw only after the lists were changed in place: for a missing source list, `splice(-1, 1)` at line 160 removes the board's last list, line 164 inserts `undefined`, and the lookup at line 166 throws reading `.id` of that `undefined` element; a board of one list throws at line 168 on the missing neighbour. A target that is not found is modelled: the list goes second to last.
- BoardsShow.BoardsShowView.DropList: `targetList` (line 163) is read but never used, so it is not modelled.
- BoardsShow.BoardsShowView.DropList: takes the two ids rather than the dragged objects, because the handler reads only `source.id` and `target.id`.
- BoardsShow.BoardsShowView.DropCard and BoardsShow.BoardsShowView.DropList: both require the board invariant `Valid()` (unique list ids, each card id once on the board) and preserve it. The handlers themselves run on any board. The invariant is needed only to make the index found again after the drop (lines 141, 166) the insertion index.
- CardDrop.SameListCardDrop: states only the case where the target card is found. When it is not found, `AfterCardDrop` still models the outcome: the card is inserted before the last card of the shortened list.
- The handlers have no abort path for an id that is not found. A missing target card (card drop) or target list (list drop) reaches `splice` as the index -1 and the item is still moved; this is modelled. The other missing ids, and too short a collection, throw, some of them only after the splices changed the board in place (see the lines above); those are the preconditions.
