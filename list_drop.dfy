/** `_handleDropList` of the board view as functions of the lists before the
    drop: the reordered lists and the update intent that is emitted. Only the
    ids of the dragged and the target list are read. */
module ListDrop {
  import opened Splice
  import opened Position
  import opened Board

  /** What the handler needs in order not to fail: the dragged list exists and
      the board holds at least two lists, so that the neighbour the position
      rule reads exists. The target list need not be found. */
  predicate ListDropAllowed(ls: seq<ListRec>, sourceId: Id) {
    0 <= ListIndex(ls, sourceId) && 2 <= |ls|
  }

  /** Where the dragged list is spliced back in: the target's index looked up
      AFTER the dragged list was taken out, as `splice` reads it (-1, for a
      target that is not found, counts from the end). */
  function ListInsertIndex(ls: seq<ListRec>, sourceId: Id, targetId: Id): nat
    requires ListDropAllowed(ls, sourceId)
  {
    var rest := Remove(ls, ListIndex(ls, sourceId));
    SpliceStart(|rest|, ListIndex(rest, targetId))
  }

  /** The lists after the drop. */
  function AfterListDrop(ls: seq<ListRec>, sourceId: Id, targetId: Id): (r: seq<ListRec>)
    requires ListDropAllowed(ls, sourceId)
    ensures |r| == |ls|
  {
    var si := ListIndex(ls, sourceId);
    Insert(Remove(ls, si), ListInsertIndex(ls, sourceId, targetId), ls[si])
  }

  /** The index the handler finds the dragged list at after the drop, by looking its id up again. */
  function ListNewIndex(ls: seq<ListRec>, sourceId: Id, targetId: Id): (k: nat)
    requires ListDropAllowed(ls, sourceId)
    ensures k < |ls|
  {
    var r := AfterListDrop(ls, sourceId, targetId);
    assert ListIds(r)[ListInsertIndex(ls, sourceId, targetId)] == sourceId;
    ListIndex(r, sourceId)
  }

  /** The emitted `{id, position}`: the new position is computed from the
      dragged list's neighbours after the drop. */
  function ListDropIntent(ls: seq<ListRec>, sourceId: Id, targetId: Id): ListIntent
    requires ListDropAllowed(ls, sourceId)
  {
    ListIntent(sourceId, NewPosition(ListPositions(AfterListDrop(ls, sourceId, targetId)), ListNewIndex(ls, sourceId, targetId)))
  }

  /** A list drop reorders the board: the same lists, none of them changed,
      with the dragged one at the insertion index and the others in their
      former order. */
  lemma ListDropPermutes(ls: seq<ListRec>, sourceId: Id, targetId: Id)
    requires ListDropAllowed(ls, sourceId)
    ensures var r := AfterListDrop(ls, sourceId, targetId);
            var si, k := ListIndex(ls, sourceId), ListInsertIndex(ls, sourceId, targetId);
            && |r| == |ls|
            && multiset(r) == multiset(ls)
            && r[k] == ls[si]
            && Remove(r, k) == Remove(ls, si)
  {
    var si, k := ListIndex(ls, sourceId), ListInsertIndex(ls, sourceId, targetId);
    RemoveInsert(Remove(ls, si), k, ls[si]);
  }

  /** A list drop keeps the board's ids unique. */
  lemma ListDropKeepsValid(ls: seq<ListRec>, sourceId: Id, targetId: Id)
    requires ValidLists(ls) && ListDropAllowed(ls, sourceId)
    ensures ValidLists(AfterListDrop(ls, sourceId, targetId))
  {
    var si, k := ListIndex(ls, sourceId), ListInsertIndex(ls, sourceId, targetId);
    var rest := Remove(ls, si);
    var r := AfterListDrop(ls, sourceId, targetId);
    MapRemove(ListId, ls, si);
    MapInsert(ListId, rest, k, ls[si]);
    assert ListIds(r) == Insert(Remove(ListIds(ls), si), k, ListIds(ls)[si]);
    assert multiset(ListIds(r)) == multiset(ListIds(ls));
    CardBagRemove(ls, si);
    CardBagInsert(rest, k, ls[si]);
    assert CardBag(r) == CardBag(ls);
  }

  /** With unique ids, looking the list up again finds it where it was spliced in. */
  lemma ListNewIndexIsInsertIndex(ls: seq<ListRec>, sourceId: Id, targetId: Id)
    requires ValidLists(ls) && ListDropAllowed(ls, sourceId)
    ensures ListNewIndex(ls, sourceId, targetId) == ListInsertIndex(ls, sourceId, targetId)
  {
    var r := AfterListDrop(ls, sourceId, targetId);
    var k := ListInsertIndex(ls, sourceId, targetId);
    ListDropKeepsValid(ls, sourceId, targetId);
    assert ListIds(r)[k] == sourceId;
    UniqueIndex(ListIds(r), k);
  }

  /** Because the target is looked up after the removal, a list dropped onto
      another list always lands directly before it, whichever direction it
      was dragged in. */
  lemma ListDropLandsBeforeTarget(ls: seq<ListRec>, sourceId: Id, targetId: Id)
    requires ListDropAllowed(ls, sourceId)
    requires targetId != sourceId && targetId in ListIds(ls)
    ensures var r := AfterListDrop(ls, sourceId, targetId);
            var k := ListInsertIndex(ls, sourceId, targetId);
            && k + 1 < |r|
            && r[k] == ls[ListIndex(ls, sourceId)]
            && r[k + 1].id == targetId
  {
    var si := ListIndex(ls, sourceId);
    var rest := Remove(ls, si);
    var t := IndexOf(ListIds(ls), targetId);
    StillThereAfterRemove(ls, si, t);
    var ti := ListIndex(rest, targetId);
    InsertBefore(rest, ti, ls[si], targetId);
  }

  /** Another list is still found once one list is taken out. */
  lemma StillThereAfterRemove(ls: seq<ListRec>, i: nat, t: nat)
    requires i < |ls| && t < |ls| && ls[i].id != ls[t].id
    ensures ls[t].id in ListIds(Remove(ls, i))
  {
    MapRemove(ListId, ls, i);
    var t' := if t < i then t else t - 1;
    assert ListIds(Remove(ls, i))[t'] == ls[t].id;
  }

  /** Inserting at a found index puts the new element directly before the one found. */
  lemma InsertBefore(rest: seq<ListRec>, ti: int, l: ListRec, id: Id)
    requires ti == ListIndex(rest, id) && 0 <= ti
    ensures var r := Insert(rest, SpliceStart(|rest|, ti), l);
            SpliceStart(|rest|, ti) == ti && ti + 1 < |r| && r[ti] == l && r[ti + 1].id == id
  {
    assert ListIds(rest)[ti] == rest[ti].id;
  }

  /** A list dropped onto itself, or onto an id that is not on the board, is
      not left where it was: the target lookup after the removal fails, and
      `splice(-1, 0, list)` puts it second to last. */
  lemma ListDropOntoItself(ls: seq<ListRec>, sourceId: Id, targetId: Id)
    requires ValidLists(ls) && ListDropAllowed(ls, sourceId)
    requires targetId == sourceId || targetId !in ListIds(ls)
    ensures ListInsertIndex(ls, sourceId, targetId) == |ls| - 2
    ensures AfterListDrop(ls, sourceId, targetId)[|ls| - 2] == ls[ListIndex(ls, sourceId)]
  {
    var si := ListIndex(ls, sourceId);
    assert ListIds(ls)[si] == sourceId;
    if targetId == sourceId {
      RemovedListIdGone(ls, si);
    } else {
      AbsentAfterRemove(ls, si, targetId);
    }
  }

  /** An id that is not on the board is not on it once a list is taken out. */
  lemma AbsentAfterRemove(ls: seq<ListRec>, i: nat, id: Id)
    requires i < |ls| && id !in ListIds(ls)
    ensures id !in ListIds(Remove(ls, i))
  {
    MapRemove(ListId, ls, i);
    var rest := ListIds(Remove(ls, i));
    forall j | 0 <= j < |rest|
      ensures rest[j] != id
    {
      var j' := if j < i then j else j + 1;
      assert rest[j] == ListIds(ls)[j'];
    }
  }

  /** Under unique list ids, a removed list's id is no longer on the board. */
  lemma RemovedListIdGone(ls: seq<ListRec>, i: nat)
    requires Unique(ListIds(ls)) && i < |ls|
    ensures ls[i].id !in ListIds(Remove(ls, i))
  {
    MapRemove(ListId, ls, i);
    assert ListIds(ls)[i] == ls[i].id;
    assert ls[i].id in multiset(ListIds(ls));
  }

  /** Once the store applies the intent, the board is ordered again: if the
      lists were in strictly increasing positive order, they are so with the
      dragged list at its new position. */
  lemma ListIntentRestoresOrder(ls: seq<ListRec>, sourceId: Id, targetId: Id)
    requires ValidLists(ls) && ListDropAllowed(ls, sourceId)
    requires Ordered(ListPositions(ls))
    ensures var r := AfterListDrop(ls, sourceId, targetId);
            var p := ListDropIntent(ls, sourceId, targetId).position;
            Ordered(ListPositions(r)[ListInsertIndex(ls, sourceId, targetId) := p])
  {
    var si, k := ListIndex(ls, sourceId), ListInsertIndex(ls, sourceId, targetId);
    var rest := Remove(ls, si);
    var r := AfterListDrop(ls, sourceId, targetId);
    ListNewIndexIsInsertIndex(ls, sourceId, targetId);
    MapRemove(ListPosition, ls, si);
    RemoveKeepsOrder(ListPositions(ls), si);
    RemoveInsert(rest, k, ls[si]);
    MapRemove(ListPosition, r, k);
    NewPositionKeepsOrder(ListPositions(r), k);
  }
}
