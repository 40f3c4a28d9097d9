/** `_handleDropCard` and `_handleDropCardWhenEmpty` of the board view, as
    functions of the lists before the drop: the lists after the splices and
    the update intent that is emitted. */
module CardDrop {
  import opened Splice
  import opened Position
  import opened Board

  /** What the handler needs in order not to fail: the dragged card's list
      (found by the card's `listId`) holds the card, the target list exists,
      and once the card is in it the target list holds at least two cards, so
      that the neighbour the position rule reads exists. The target card
      itself need not be found. */
  predicate CardDropAllowed(ls: seq<ListRec>, source: Card, target: Card) {
    var si := ListIndex(ls, source.listId);
    var ti := ListIndex(ls, target.listId);
    0 <= si && 0 <= ti && 0 <= CardIndex(ls[si].cards, source.id)
    && 2 <= |ls[ti].cards| + (if si == ti then 0 else 1)
  }

  /** The lists once the dragged card has been spliced out of its list. */
  function SourceRemoved(ls: seq<ListRec>, source: Card): (r: seq<ListRec>)
    requires 0 <= ListIndex(ls, source.listId)
    requires 0 <= CardIndex(ls[ListIndex(ls, source.listId)].cards, source.id)
    ensures |r| == |ls|
  {
    var si := ListIndex(ls, source.listId);
    ls[si := ls[si].(cards := Remove(ls[si].cards, CardIndex(ls[si].cards, source.id)))]
  }

  /** Where the card is spliced into the target list: the target card's index,
      looked up before the removal, as `splice` reads it (-1, for a target card
      that is not found, counts from the end). */
  function CardInsertIndex(ls: seq<ListRec>, source: Card, target: Card): nat
    requires CardDropAllowed(ls, source, target)
  {
    var ti := ListIndex(ls, target.listId);
    SpliceStart(|SourceRemoved(ls, source)[ti].cards|, CardIndex(ls[ti].cards, target.id))
  }

  /** The lists after the drop: the dragged card value is inserted, unchanged,
      into the target list of the lists it was removed from. When both lists are
      the same, the insertion goes into the shortened list. */
  function AfterCardDrop(ls: seq<ListRec>, source: Card, target: Card): (r: seq<ListRec>)
    requires CardDropAllowed(ls, source, target)
    ensures |r| == |ls|
  {
    var ti := ListIndex(ls, target.listId);
    var removed := SourceRemoved(ls, source);
    removed[ti := removed[ti].(cards := Insert(removed[ti].cards, CardInsertIndex(ls, source, target), source))]
  }

  /** The index the handler finds the dragged card at after the drop, by looking its id up again. */
  function CardNewIndex(ls: seq<ListRec>, source: Card, target: Card): (k: nat)
    requires CardDropAllowed(ls, source, target)
    ensures k < |AfterCardDrop(ls, source, target)[ListIndex(ls, target.listId)].cards|
  {
    var cs := AfterCardDrop(ls, source, target)[ListIndex(ls, target.listId)].cards;
    assert CardIds(cs)[CardInsertIndex(ls, source, target)] == source.id;
    CardIndex(cs, source.id)
  }

  /** The emitted `{id, list_id, position}`: the new position is computed from
      the neighbours in the target list after the drop. */
  function CardDropIntent(ls: seq<ListRec>, source: Card, target: Card): CardIntent
    requires CardDropAllowed(ls, source, target)
  {
    var cs := AfterCardDrop(ls, source, target)[ListIndex(ls, target.listId)].cards;
    CardIntent(source.id, target.listId, NewPosition(CardPositions(cs), CardNewIndex(ls, source, target)))
  }

  /** A card dropped onto an empty list is emitted as the intent as it is:
      no index is looked up and no position is allocated. */
  function DropCardWhenEmpty(card: Card): (intent: CardIntent)
    ensures intent.id == card.id && intent.listId == card.listId && intent.position == card.position
  {
    CardIntent(card.id, card.listId, card.position)
  }

  /** A drop keeps the board's ids unique: the card leaves one list and enters
      one list, so it is never in two lists or in none. */
  lemma CardDropKeepsValid(ls: seq<ListRec>, source: Card, target: Card)
    requires ValidLists(ls) && CardDropAllowed(ls, source, target)
    ensures ValidLists(AfterCardDrop(ls, source, target))
  {
    var si, ti := ListIndex(ls, source.listId), ListIndex(ls, target.listId);
    var cs := ls[si].cards;
    var sci := CardIndex(cs, source.id);
    var removed := SourceRemoved(ls, source);
    var k := CardInsertIndex(ls, source, target);
    var r := AfterCardDrop(ls, source, target);
    assert ListIds(removed) == ListIds(ls) by {
      assert forall j :: 0 <= j < |ls| ==> ListIds(removed)[j] == ListIds(ls)[j];
    }
    assert ListIds(r) == ListIds(removed) by {
      assert forall j :: 0 <= j < |ls| ==> ListIds(r)[j] == ListIds(removed)[j];
    }
    // one occurrence of the card's id leaves the source list ...
    assert CardIds(cs)[sci] == source.id;
    CardBagRemoveCard(ls, si, sci);
    // ... and one enters the target list
    CardBagInsertCard(removed, ti, k, source);
    assert CardBag(r) == CardBag(ls);
  }

  /** With unique ids, looking the card up again finds it where it was spliced in. */
  lemma CardNewIndexIsInsertIndex(ls: seq<ListRec>, source: Card, target: Card)
    requires ValidLists(ls) && CardDropAllowed(ls, source, target)
    ensures CardNewIndex(ls, source, target) == CardInsertIndex(ls, source, target)
  {
    var ti := ListIndex(ls, target.listId);
    var r := AfterCardDrop(ls, source, target);
    var k := CardInsertIndex(ls, source, target);
    CardDropKeepsValid(ls, source, target);
    CardsUnique(r, ti);
    assert CardIds(r[ti].cards)[k] == source.id;
    UniqueIndex(CardIds(r[ti].cards), k);
  }

  /** A card dragged to another list leaves its list, where the other cards
      keep their order, and is in the target list exactly once, directly
      before the target card, the target list's other cards keeping their
      order. It keeps its old `listId` locally, and the other lists are
      untouched. */
  lemma CrossListCardDrop(ls: seq<ListRec>, source: Card, target: Card)
    requires ValidLists(ls) && CardDropAllowed(ls, source, target)
    requires ListIndex(ls, source.listId) != ListIndex(ls, target.listId)
    ensures var r := AfterCardDrop(ls, source, target);
            var si, ti := ListIndex(ls, source.listId), ListIndex(ls, target.listId);
            var tci := CardIndex(ls[ti].cards, target.id);
            var k := CardInsertIndex(ls, source, target);
            && r[si] == ls[si].(cards := Remove(ls[si].cards, CardIndex(ls[si].cards, source.id)))
            && r[ti] == ls[ti].(cards := Insert(ls[ti].cards, k, source))
            && source.id !in CardIds(r[si].cards)
            && multiset(CardIds(r[ti].cards))[source.id] == 1
            && r[ti].cards[k] == source
            && Remove(r[ti].cards, k) == ls[ti].cards
            && (0 <= tci ==> k == tci && r[ti].cards[k + 1] == ls[ti].cards[tci])
            && (tci < 0 ==> k == |ls[ti].cards| - 1)
            && r[ti].cards[k].listId != r[ti].id
            && forall j :: 0 <= j < |ls| && j != si && j != ti ==> r[j] == ls[j]
  {
    var r := AfterCardDrop(ls, source, target);
    var si, ti := ListIndex(ls, source.listId), ListIndex(ls, target.listId);
    var cs := ls[si].cards;
    var sci := CardIndex(cs, source.id);
    var k := CardInsertIndex(ls, source, target);
    // the dragged card's id was in its own list once, and is now in no list but the target
    assert CardIds(cs)[sci] == source.id;
    CardsUnique(ls, si);
    RemovedIdGone(cs, sci);
    // ... and the target list did not hold it before
    CardsDisjoint(ls, si, ti, source.id);
    CardIdsInsert(ls[ti].cards, k, source);
    RemoveInsert(ls[ti].cards, k, source);
    assert ListIds(ls)[si] == source.listId && ListIds(ls)[ti] == target.listId;
  }

  /** A card dragged within its own list: the list keeps its length and holds
      the same cards but with the dragged value in place of the stored one; the
      card ends at the target card's index taken before the removal, so it
      lands directly after the target when dragged forward and directly before
      it when dragged backward. The other cards keep their order and the other
      lists are untouched. */
  lemma SameListCardDrop(ls: seq<ListRec>, source: Card, target: Card)
    requires CardDropAllowed(ls, source, target)
    requires ListIndex(ls, source.listId) == ListIndex(ls, target.listId)
    requires 0 <= CardIndex(ls[ListIndex(ls, target.listId)].cards, target.id)
    ensures var r := AfterCardDrop(ls, source, target);
            var si := ListIndex(ls, source.listId);
            var before, after := ls[si].cards, r[si].cards;
            var sci, tci := CardIndex(before, source.id), CardIndex(before, target.id);
            && CardInsertIndex(ls, source, target) == tci
            && r[si] == ls[si].(cards := after)
            && |after| == |before|
            && multiset(after) + multiset{before[sci]} == multiset(before) + multiset{source}
            && after[tci] == source
            && (sci < tci ==> after[tci - 1] == before[tci])
            && (tci < sci ==> after[tci + 1] == before[tci])
            && Remove(after, tci) == Remove(before, sci)
            && forall j :: 0 <= j < |ls| && j != si ==> r[j] == ls[j]
  {
    var r := AfterCardDrop(ls, source, target);
    var si := ListIndex(ls, source.listId);
    var before := ls[si].cards;
    var sci, tci := CardIndex(before, source.id), CardIndex(before, target.id);
    SameListShape(ls, source, target);
    MoveWithinList(ls, si, sci, tci, source);
  }

  lemma SameListShape(ls: seq<ListRec>, source: Card, target: Card)
    requires CardDropAllowed(ls, source, target)
    requires ListIndex(ls, source.listId) == ListIndex(ls, target.listId)
    requires 0 <= CardIndex(ls[ListIndex(ls, target.listId)].cards, target.id)
    ensures var si := ListIndex(ls, source.listId);
            var before := ls[si].cards;
            var sci, tci := CardIndex(before, source.id), CardIndex(before, target.id);
            && CardInsertIndex(ls, source, target) == tci
            && AfterCardDrop(ls, source, target) == ls[si := ls[si].(cards := Insert(Remove(before, sci), tci, source))]
  {
    var si := ListIndex(ls, source.listId);
    var before := ls[si].cards;
    var sci := CardIndex(before, source.id);
    var tci := CardIndex(before, target.id);
    var removed := SourceRemoved(ls, source);
    assert removed[si] == ls[si].(cards := Remove(before, sci));
    assert CardInsertIndex(ls, source, target) == SpliceStart(|before| - 1, tci) == tci;
    var x := ls[si].(cards := Insert(Remove(before, sci), tci, source));
    assert AfterCardDrop(ls, source, target) == removed[si := x];
    UpdateTwice(ls, si, removed[si], x);
  }


  /** The same-list move with its indices given. */
  lemma MoveWithinList(ls: seq<ListRec>, si: nat, sci: nat, tci: nat, x: Card)
    requires si < |ls| && sci < |ls[si].cards| && tci < |ls[si].cards|
    ensures var before := ls[si].cards;
            var r := ls[si := ls[si].(cards := Insert(Remove(before, sci), tci, x))];
            var after := r[si].cards;
            && r[si] == ls[si].(cards := after)
            && |after| == |before|
            && multiset(after) + multiset{before[sci]} == multiset(before) + multiset{x}
            && after[tci] == x
            && (sci < tci ==> after[tci - 1] == before[tci])
            && (tci < sci ==> after[tci + 1] == before[tci])
            && Remove(after, tci) == Remove(before, sci)
            && forall j :: 0 <= j < |ls| && j != si ==> r[j] == ls[j]
  {
    MoveWithin(ls[si].cards, sci, tci, x);
  }

  /** Once the store applies the intent, the target list is ordered again:
      if the lists the card left and entered were in strictly increasing
      positive order, the target list with the dragged card at its new
      position is too, and so is the list it left. */
  lemma CardIntentRestoresOrder(ls: seq<ListRec>, source: Card, target: Card)
    requires ValidLists(ls) && CardDropAllowed(ls, source, target)
    requires Ordered(CardPositions(ls[ListIndex(ls, source.listId)].cards))
    requires Ordered(CardPositions(ls[ListIndex(ls, target.listId)].cards))
    ensures var r := AfterCardDrop(ls, source, target);
            var si, ti := ListIndex(ls, source.listId), ListIndex(ls, target.listId);
            var p := CardDropIntent(ls, source, target).position;
            && Ordered(CardPositions(r[ti].cards)[CardInsertIndex(ls, source, target) := p])
            && (si != ti ==> Ordered(CardPositions(r[si].cards)))
  {
    var r := AfterCardDrop(ls, source, target);
    var si, ti := ListIndex(ls, source.listId), ListIndex(ls, target.listId);
    var cs := ls[si].cards;
    var sci := CardIndex(cs, source.id);
    var removed := SourceRemoved(ls, source);
    var k := CardInsertIndex(ls, source, target);
    CardNewIndexIsInsertIndex(ls, source, target);
    // the list the card left is still ordered
    MapRemove(CardPosition, cs, sci);
    RemoveKeepsOrder(CardPositions(cs), sci);
    // the target list without the dragged card is the one before the insertion
    RemoveInsert(removed[ti].cards, k, source);
    MapRemove(CardPosition, r[ti].cards, k);
    assert Ordered(CardPositions(removed[ti].cards));
    NewPositionKeepsOrder(CardPositions(r[ti].cards), k);
  }

  /** The list [1@1024, 2@2048, 3@3072], as list 7. */
  function ExampleList(): seq<ListRec> {
    [ListRec(7, 1024.0, [Card(1, 7, 1024.0), Card(2, 7, 2048.0), Card(3, 7, 3072.0)])]
  }

  lemma ExampleListIndex()
    ensures ListIndex(ExampleList(), 7) == 0
  {
    assert ListIds(ExampleList())[0] == 7;
  }

  lemma ExampleCardIndices()
    ensures var cs := [Card(1, 7, 1024.0), Card(2, 7, 2048.0), Card(3, 7, 3072.0)];
            CardIndex(cs, 3) == 2 && CardIndex(cs, 2) == 1
  {
    var cs := [Card(1, 7, 1024.0), Card(2, 7, 2048.0), Card(3, 7, 3072.0)];
    assert CardIds(cs)[0] == 1 && CardIds(cs)[1] == 2 && CardIds(cs)[2] == 3;
  }

  lemma ExampleRemoved()
    ensures CardDropAllowed(ExampleList(), Card(3, 7, 3072.0), Card(2, 7, 2048.0))
    ensures SourceRemoved(ExampleList(), Card(3, 7, 3072.0)) == [ListRec(7, 1024.0, [Card(1, 7, 1024.0), Card(2, 7, 2048.0)])]
  {
    ExampleListIndex();
    ExampleCardIndices();
    ExampleRemove();
  }

  lemma ExampleRemove()
    ensures Remove([Card(1, 7, 1024.0), Card(2, 7, 2048.0), Card(3, 7, 3072.0)], 2)
         == [Card(1, 7, 1024.0), Card(2, 7, 2048.0)]
  {
    var c1, c2, c3 := Card(1, 7, 1024.0), Card(2, 7, 2048.0), Card(3, 7, 3072.0);
    var r := Remove([c1, c2, c3], 2);
    assert r[0] == c1 && r[1] == c2;
  }

  lemma ExampleInsertIndex()
    ensures CardDropAllowed(ExampleList(), Card(3, 7, 3072.0), Card(2, 7, 2048.0))
    ensures SourceRemoved(ExampleList(), Card(3, 7, 3072.0)) == [ListRec(7, 1024.0, [Card(1, 7, 1024.0), Card(2, 7, 2048.0)])]
    ensures CardInsertIndex(ExampleList(), Card(3, 7, 3072.0), Card(2, 7, 2048.0)) == 1
  {
    ExampleRemoved();
    ExampleListIndex();
    ExampleCardIndices();
  }

  lemma ExampleOrder()
    ensures CardDropAllowed(ExampleList(), Card(3, 7, 3072.0), Card(2, 7, 2048.0))
    ensures AfterCardDrop(ExampleList(), Card(3, 7, 3072.0), Card(2, 7, 2048.0))
         == [ListRec(7, 1024.0, [Card(1, 7, 1024.0), Card(3, 7, 3072.0), Card(2, 7, 2048.0)])]
  {
    var c1, c2, c3 := Card(1, 7, 1024.0), Card(2, 7, 2048.0), Card(3, 7, 3072.0);
    var removed := [ListRec(7, 1024.0, [c1, c2])];
    ExampleInsertIndex();
    ExampleListIndex();
    ExampleInsert();
    UpdateSingleton(removed[0], ListRec(7, 1024.0, [c1, c3, c2]));
  }

  lemma ExampleInsert()
    ensures Insert([Card(1, 7, 1024.0), Card(2, 7, 2048.0)], 1, Card(3, 7, 3072.0))
         == [Card(1, 7, 1024.0), Card(3, 7, 3072.0), Card(2, 7, 2048.0)]
  {
    var c1, c2, c3 := Card(1, 7, 1024.0), Card(2, 7, 2048.0), Card(3, 7, 3072.0);
    var r := Insert([c1, c2], 1, c3);
    assert r[0] == c1 && r[1] == c3 && r[2] == c2;
  }

  lemma ExampleFound()
    ensures CardIndex([Card(1, 7, 1024.0), Card(3, 7, 3072.0), Card(2, 7, 2048.0)], 3) == 1
  {
    var cs := [Card(1, 7, 1024.0), Card(3, 7, 3072.0), Card(2, 7, 2048.0)];
    assert CardIds(cs)[0] == 1 && CardIds(cs)[1] == 3;
  }

  lemma ExampleNewIndex()
    ensures CardDropAllowed(ExampleList(), Card(3, 7, 3072.0), Card(2, 7, 2048.0))
    ensures CardNewIndex(ExampleList(), Card(3, 7, 3072.0), Card(2, 7, 2048.0)) == 1
  {
    ExampleOrder();
    ExampleListIndex();
    ExampleFound();
  }

  lemma ExampleMidpoint()
    ensures NewPosition(CardPositions([Card(1, 7, 1024.0), Card(3, 7, 3072.0), Card(2, 7, 2048.0)]), 1) == 1536.0
  {
    var cs := [Card(1, 7, 1024.0), Card(3, 7, 3072.0), Card(2, 7, 2048.0)];
    assert CardPositions(cs)[0] == 1024.0 && CardPositions(cs)[2] == 2048.0;
  }

  /** Dropping card 3 onto card 2 in the list [1@1024, 2@2048, 3@3072] gives
      the order [1, 3, 2] and the position 1536, the midpoint of its new
      neighbours. */
  lemma DropOntoEarlierCard()
    ensures var c1, c2, c3 := Card(1, 7, 1024.0), Card(2, 7, 2048.0), Card(3, 7, 3072.0);
            && ExampleList() == [ListRec(7, 1024.0, [c1, c2, c3])]
            && CardDropAllowed(ExampleList(), c3, c2)
            && AfterCardDrop(ExampleList(), c3, c2) == [ListRec(7, 1024.0, [c1, c3, c2])]
            && CardDropIntent(ExampleList(), c3, c2) == CardIntent(3, 7, 1536.0)
  {
    var c1, c2, c3 := Card(1, 7, 1024.0), Card(2, 7, 2048.0), Card(3, 7, 3072.0);
    ExampleOrder();
    ExampleNewIndex();
    ExampleListIndex();
    ExampleMidpoint();
  }
}
