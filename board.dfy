/** The board the view holds: lists of cards, each with an id and a
    `position`, and the lookups by id (`Array.prototype.findIndex`) that the
    drop handlers make. */
module Board {
  import opened Splice

  type Id = int

  /** A card of a list; payload fields such as the title play no part in ordering. */
  datatype Card = Card(id: Id, listId: Id, position: real)

  /** A list of the board with its ordered cards. */
  datatype ListRec = ListRec(id: Id, position: real, cards: seq<Card>)

  /** The update sent to the store after a card drop: `{id, list_id, position}`. */
  datatype CardIntent = CardIntent(id: Id, listId: Id, position: real)

  /** The update sent to the store after a list drop: `{id, position}`. */
  datatype ListIntent = ListIntent(id: Id, position: real)

  function CardId(c: Card): Id { c.id }
  function CardPosition(c: Card): real { c.position }
  function ListId(l: ListRec): Id { l.id }
  function ListPosition(l: ListRec): real { l.position }

  function CardIds(cs: seq<Card>): seq<Id> { Map(CardId, cs) }
  function CardPositions(cs: seq<Card>): seq<real> { Map(CardPosition, cs) }
  function ListIds(ls: seq<ListRec>): seq<Id> { Map(ListId, ls) }
  function ListPositions(ls: seq<ListRec>): seq<real> { Map(ListPosition, ls) }

  /** `ids.findIndex(x => x === id)`: the first index holding `id`, or -1 when there is none. */
  function IndexOf(ids: seq<Id>, id: Id): (k: int)
    ensures -1 <= k < |ids|
    ensures k == -1 <==> id !in ids
    ensures 0 <= k ==> ids[k] == id && forall j :: 0 <= j < k ==> ids[j] != id
  {
    if ids == [] then -1
    else if ids[0] == id then 0
    else
      var k := IndexOf(ids[1..], id);
      assert forall j :: 0 <= j < |ids| - 1 ==> ids[1..][j] == ids[j + 1];
      if k == -1 then -1 else k + 1
  }

  function ListIndex(ls: seq<ListRec>, id: Id): int { IndexOf(ListIds(ls), id) }
  function CardIndex(cs: seq<Card>, id: Id): int { IndexOf(CardIds(cs), id) }

  /** Two ids that are both found are found at the same index exactly when they
      are the same id, on any board: comparing the indices of two lookups is
      comparing the list objects they found. */
  lemma SameListIndex(ls: seq<ListRec>, a: Id, b: Id)
    requires 0 <= ListIndex(ls, a) && 0 <= ListIndex(ls, b)
    ensures ListIndex(ls, a) == ListIndex(ls, b) <==> a == b
  {
    assert ListIds(ls)[ListIndex(ls, a)] == a && ListIds(ls)[ListIndex(ls, b)] == b;
  }

  /** `lists.findIndex(list => list.id === id)`. */
  method FindList(ls: seq<ListRec>, id: Id) returns (k: int)
    ensures k == ListIndex(ls, id)
  {
    var i := 0;
    while i < |ls|
      invariant 0 <= i <= |ls|
      invariant forall j :: 0 <= j < i ==> ls[j].id != id
    {
      if ls[i].id == id {
        assert ListIds(ls)[i] == id;
        return i;
      }
      i := i + 1;
    }
    assert forall j :: 0 <= j < |ls| ==> ListIds(ls)[j] != id;
    return -1;
  }

  /** `cards.findIndex(card => card.id === id)`. */
  method FindCard(cs: seq<Card>, id: Id) returns (k: int)
    ensures k == CardIndex(cs, id)
  {
    var i := 0;
    while i < |cs|
      invariant 0 <= i <= |cs|
      invariant forall j :: 0 <= j < i ==> cs[j].id != id
    {
      if cs[i].id == id {
        assert CardIds(cs)[i] == id;
        return i;
      }
      i := i + 1;
    }
    assert forall j :: 0 <= j < |cs| ==> CardIds(cs)[j] != id;
    return -1;
  }

  /** Each id occurs at most once. */
  predicate UniqueBag(m: multiset<Id>) {
    forall x | x in m :: m[x] <= 1
  }

  predicate Unique(ids: seq<Id>) {
    UniqueBag(multiset(ids))
  }

  /** The ids of all cards of the board, counted with multiplicity. */
  function CardBag(ls: seq<ListRec>): multiset<Id> {
    if ls == [] then multiset{} else multiset(CardIds(ls[0].cards)) + CardBag(ls[1..])
  }

  /** The board's identity invariant: list ids are unique, and every card id
      occurs once on the whole board, so a card belongs to exactly one list. */
  predicate ValidLists(ls: seq<ListRec>) {
    Unique(ListIds(ls)) && UniqueBag(CardBag(ls))
  }

  /** An id held at two indices is counted at least twice. */
  lemma CountedTwice(ids: seq<Id>, j: nat, k: nat)
    requires j < k < |ids| && ids[j] == ids[k]
    ensures multiset(ids)[ids[k]] >= 2
  {
    var x := ids[k];
    assert ids == ids[..k] + ids[k..];
    assert multiset(ids) == multiset(ids[..k]) + multiset(ids[k..]);
    assert ids[..k][j] == x;
    assert ids[k..][0] == x;
  }

  /** With unique ids, looking up the id found at index k gives back k. */
  lemma UniqueIndex(ids: seq<Id>, k: nat)
    requires Unique(ids) && k < |ids|
    ensures IndexOf(ids, ids[k]) == k
  {
    var j := IndexOf(ids, ids[k]);
    if j < k {
      CountedTwice(ids, j, k);
      assert false;
    }
  }

  lemma {:induction false} CardBagConcat(a: seq<ListRec>, b: seq<ListRec>)
    ensures CardBag(a + b) == CardBag(a) + CardBag(b)
  {
    if a == [] {
      assert a + b == b;
    } else {
      assert (a + b)[1..] == a[1..] + b;
      CardBagConcat(a[1..], b);
    }
  }

  /** The card ids of a board are those of the lists before i, of list i and of the lists after it. */
  lemma {:induction false} CardBagSplit(ls: seq<ListRec>, i: nat)
    requires i < |ls|
    ensures CardBag(ls) == CardBag(ls[..i]) + multiset(CardIds(ls[i].cards)) + CardBag(ls[i + 1..])
  {
    if i == 0 {
      assert ls[..0] == [] && ls[1..] == ls[i + 1..];
    } else {
      var front := ls[..i];
      assert front[0] == ls[0] && front[1..] == ls[1..][..i - 1];
      assert ls[1..][i - 1] == ls[i] && ls[1..][i..] == ls[i + 1..];
      CardBagSplit(ls[1..], i - 1);
    }
  }

  /** Replacing the cards of list i replaces exactly their ids in the board's card ids. */
  lemma CardBagUpdate(ls: seq<ListRec>, i: nat, cs: seq<Card>)
    requires i < |ls|
    ensures CardBag(ls[i := ls[i].(cards := cs)]) + multiset(CardIds(ls[i].cards))
         == CardBag(ls) + multiset(CardIds(cs))
  {
    var ls' := ls[i := ls[i].(cards := cs)];
    CardBagSplit(ls, i);
    CardBagSplit(ls', i);
    assert ls'[..i] == ls[..i] && ls'[i + 1..] == ls[i + 1..];
  }

  /** Taking list i out of the board takes exactly its card ids out. */
  lemma CardBagRemove(ls: seq<ListRec>, i: nat)
    requires i < |ls|
    ensures CardBag(Remove(ls, i)) + multiset(CardIds(ls[i].cards)) == CardBag(ls)
  {
    CardBagSplit(ls, i);
    CardBagConcat(ls[..i], ls[i + 1..]);
  }

  /** Putting a list into the board adds exactly its card ids. */
  lemma CardBagInsert(ls: seq<ListRec>, i: nat, l: ListRec)
    requires i <= |ls|
    ensures CardBag(Insert(ls, i, l)) == CardBag(ls) + multiset(CardIds(l.cards))
  {
    RemoveInsert(ls, i, l);
    CardBagRemove(Insert(ls, i, l), i);
  }

  lemma Cancel(x: multiset<Id>, y: multiset<Id>, m: multiset<Id>)
    requires x + m == y + m
    ensures x == y
  {
    assert forall v :: x[v] == (x + m)[v] - m[v] == (y + m)[v] - m[v] == y[v];
  }

  /** Removing a card removes one occurrence of its id. */
  lemma CardIdsRemove(cs: seq<Card>, i: nat)
    requires i < |cs|
    ensures multiset(CardIds(Remove(cs, i))) + multiset{cs[i].id} == multiset(CardIds(cs))
  {
    MapRemove(CardId, cs, i);
    assert CardIds(cs)[i] == cs[i].id;
  }

  /** Inserting a card adds one occurrence of its id. */
  lemma CardIdsInsert(cs: seq<Card>, i: nat, c: Card)
    requires i <= |cs|
    ensures multiset(CardIds(Insert(cs, i, c))) == multiset(CardIds(cs)) + multiset{c.id}
  {
    MapInsert(CardId, cs, i, c);
  }

  lemma CardBagRemoveCard(ls: seq<ListRec>, i: nat, k: nat)
    requires i < |ls| && k < |ls[i].cards|
    ensures CardBag(ls[i := ls[i].(cards := Remove(ls[i].cards, k))]) + multiset{ls[i].cards[k].id}
         == CardBag(ls)
  {
    var m := multiset(CardIds(Remove(ls[i].cards, k)));
    CardBagUpdate(ls, i, Remove(ls[i].cards, k));
    CardIdsRemove(ls[i].cards, k);
    Cancel(CardBag(ls[i := ls[i].(cards := Remove(ls[i].cards, k))]) + multiset{ls[i].cards[k].id}, CardBag(ls), m);
  }

  lemma CardBagInsertCard(ls: seq<ListRec>, i: nat, k: nat, c: Card)
    requires i < |ls| && k <= |ls[i].cards|
    ensures CardBag(ls[i := ls[i].(cards := Insert(ls[i].cards, k, c))]) == CardBag(ls) + multiset{c.id}
  {
    var m := multiset(CardIds(ls[i].cards));
    CardBagUpdate(ls, i, Insert(ls[i].cards, k, c));
    CardIdsInsert(ls[i].cards, k, c);
    Cancel(CardBag(ls[i := ls[i].(cards := Insert(ls[i].cards, k, c))]), CardBag(ls) + multiset{c.id}, m);
  }

  /** Under unique ids, a removed card's id is no longer in the list. */
  lemma RemovedIdGone(cs: seq<Card>, i: nat)
    requires Unique(CardIds(cs)) && i < |cs|
    ensures cs[i].id !in CardIds(Remove(cs, i))
  {
    CardIdsRemove(cs, i);
    assert cs[i].id in multiset(CardIds(cs));
  }

  /** Under the invariant, the cards of one list have unique ids. */
  lemma CardsUnique(ls: seq<ListRec>, a: nat)
    requires ValidLists(ls) && a < |ls|
    ensures Unique(CardIds(ls[a].cards))
  {
    CardBagSplit(ls, a);
    var m := multiset(CardIds(ls[a].cards));
    forall x | x in m
      ensures m[x] <= 1
    {
      assert CardBag(ls)[x] >= m[x];
    }
  }

  /** The card ids of one list are among the board's. */
  lemma CardBagContains(ls: seq<ListRec>, b: nat)
    requires b < |ls|
    ensures multiset(CardIds(ls[b].cards)) <= CardBag(ls)
  {
    CardBagSplit(ls, b);
  }

  /** Under the invariant, a card id found in one list is found in no other. */
  lemma CardsDisjoint(ls: seq<ListRec>, a: nat, b: nat, x: Id)
    requires ValidLists(ls) && a < |ls| && b < |ls| && a != b
    requires x in CardIds(ls[a].cards)
    ensures x !in CardIds(ls[b].cards)
  {
    var rest := Remove(ls, a);
    var b' := if b < a then b else b - 1;
    assert rest[b'] == ls[b];
    CardBagRemove(ls, a);
    CardBagContains(rest, b');
    var ma, mb := multiset(CardIds(ls[a].cards)), multiset(CardIds(ls[b].cards));
    assert ma + mb <= CardBag(ls);
    assert x in CardBag(ls) && CardBag(ls)[x] >= ma[x] + mb[x];
  }
}
