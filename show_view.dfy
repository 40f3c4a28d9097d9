/** The drop handlers of `BoardsShowView`: the board's `lists` is changed in
    place by splicing, and the update intent the handler dispatches is
    returned. */
module BoardsShow {
  import opened Splice
  import opened Position
  import opened Board
  import opened CardDrop
  import opened ListDrop

  class BoardsShowView {
    /** `currentBoard.lists`, each list with its `cards`. */
    var lists: seq<ListRec>

    ghost predicate Valid()
      reads this
    {
      ValidLists(lists)
    }

    constructor (initial: seq<ListRec>)
      requires ValidLists(initial)
      ensures Valid() && lists == initial
    {
      lists := initial;
    }

    /** `_handleDropCard({source, target})`: splices the dragged card out of
        its list and into the target list at the target card's former index,
        then computes the card's new position from its new neighbours. */
    method DropCard(source: Card, target: Card) returns (intent: CardIntent)
      requires Valid() && CardDropAllowed(lists, source, target)
      modifies this
      ensures Valid()
      ensures lists == AfterCardDrop(old(lists), source, target)
      ensures intent == CardDropIntent(old(lists), source, target)
    {
      ghost var before := lists;
      var sourceListIndex := FindList(lists, source.listId);
      var sourceList := lists[sourceListIndex];
      var sourceCardIndex := FindCard(sourceList.cards, source.id);
      var sourceCard := sourceList.cards[sourceCardIndex];

      var targetListIndex := FindList(lists, target.listId);
      var targetList := lists[targetListIndex];
      var targetCardIndex := FindCard(targetList.cards, target.id);

      lists := lists[sourceListIndex := sourceList.(cards := Remove(sourceList.cards, sourceCardIndex))];

      if sourceListIndex == targetListIndex {
        // the shortened list receives the card, at the index taken before the removal
        var cards := lists[sourceListIndex].cards;
        lists := lists[sourceListIndex := lists[sourceListIndex].(cards := Insert(cards, SpliceStart(|cards|, targetCardIndex), source))];
      } else {
        var cards := targetList.cards;
        lists := lists[targetListIndex := targetList.(cards := Insert(cards, SpliceStart(|cards|, targetCardIndex), source))];
      }
      assert lists == AfterCardDrop(before, source, target);
      targetList := lists[targetListIndex];

      var newIndex := FindCard(targetList.cards, source.id);
      var position := NewPosition(CardPositions(targetList.cards), newIndex);
      assert CardIds(sourceList.cards)[sourceCardIndex] == source.id;
      assert ListIds(before)[targetListIndex] == target.listId;
      intent := CardIntent(sourceCard.id, targetList.id, position);
      CardDropKeepsValid(before, source, target);
    }

    /** `_handleDropList({source, target})`: splices the dragged list out,
        looks the target up in the shortened board, splices the list in there
        and computes its new position from its new neighbours. */
    method DropList(sourceId: Id, targetId: Id) returns (intent: ListIntent)
      requires Valid() && ListDropAllowed(lists, sourceId)
      modifies this
      ensures Valid()
      ensures lists == AfterListDrop(old(lists), sourceId, targetId)
      ensures intent == ListDropIntent(old(lists), sourceId, targetId)
    {
      ghost var before := lists;
      var sourceListIndex := FindList(lists, sourceId);
      var sourceList := lists[sourceListIndex];
      lists := Remove(lists, sourceListIndex);

      var targetListIndex := FindList(lists, targetId);
      lists := Insert(lists, SpliceStart(|lists|, targetListIndex), sourceList);
      assert lists == AfterListDrop(before, sourceId, targetId);

      var newIndex := FindList(lists, sourceId);
      var position := NewPosition(ListPositions(lists), newIndex);
      intent := ListIntent(sourceId, position);
      ListDropKeepsValid(before, sourceId, targetId);
    }
  }
}
