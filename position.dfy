/** The position rule of the board view: the `position` a dragged card or list
    is given once it has been spliced into its new place (show.js lines 143
    and 168). Positions are JavaScript numbers and are modelled as `real`. */
module Position {
  import opened Splice

  /** The gap left after the last item when an item is dropped at the tail. */
  const Gap: real := 1024.0

  /** Positions strictly increase in display order. */
  predicate Increasing(ps: seq<real>) {
    forall i, j :: 0 <= i < j < |ps| ==> ps[i] < ps[j]
  }

  predicate Positive(ps: seq<real>) {
    forall i :: 0 <= i < |ps| ==> ps[i] > 0.0
  }

  /** Positions in strictly increasing order and, so that halving at the head stays above zero, positive. */
  predicate Ordered(ps: seq<real>) {
    Increasing(ps) && Positive(ps)
  }

  /** The position for the item at index `i` of `ps`, computed from its new
      neighbours only: half the next position at the head, the previous one
      plus the gap at the tail, and the midpoint otherwise. The head test is
      made first. */
  function NewPosition(ps: seq<real>, i: nat): (r: real)
    requires 2 <= |ps| && i < |ps|
    ensures i == 0 && ps[1] > 0.0 ==> 0.0 < r < ps[1]
    ensures 0 < i == |ps| - 1 ==> ps[i - 1] < r
    ensures 0 < i < |ps| - 1 && ps[i - 1] < ps[i + 1] ==> ps[i - 1] < r < ps[i + 1]
  {
    if i == 0 then ps[1] / 2.0
    else if i == |ps| - 1 then ps[i - 1] + Gap
    else (ps[i - 1] + ps[i + 1]) / 2.0
  }

  /** The item's own former position plays no part in its new one. */
  lemma NewPositionIgnoresOwn(ps: seq<real>, i: nat, v: real)
    requires 2 <= |ps| && i < |ps|
    ensures NewPosition(ps[i := v], i) == NewPosition(ps, i)
  {
  }

  /** Dropping an item never requires renumbering its siblings: if the
      other items are in strictly increasing positive order, giving the moved
      item its new position makes the whole collection so. */
  lemma NewPositionKeepsOrder(ps: seq<real>, i: nat)
    requires 2 <= |ps| && i < |ps|
    requires Ordered(Remove(ps, i))
    ensures Ordered(ps[i := NewPosition(ps, i)])
  {
    var others := Remove(ps, i);
    var r := NewPosition(ps, i);
    var q := ps[i := r];
    // the new position lies after every item before i ...
    if 0 < i {
      assert ps[i - 1] == others[i - 1];
      assert ps[i - 1] < r by {
        if i < |ps| - 1 { assert others[i - 1] < others[i] == ps[i + 1]; }
      }
    }
    // ... and before every item after it
    if i < |ps| - 1 {
      assert ps[i + 1] == others[i];
      assert r < ps[i + 1] by {
        if 0 < i { assert others[i - 1] < others[i]; }
      }
    }
    forall a, b | 0 <= a < b < |q|
      ensures q[a] < q[b]
    {
      if a == i {
        assert q[b] == others[b - 1];
        assert others[i] <= others[b - 1];
      } else if b == i {
        assert q[a] == others[a];
        assert others[a] <= others[i - 1];
      } else {
        var a' := if a < i then a else a - 1;
        var b' := if b < i then b else b - 1;
        assert q[a] == others[a'] && q[b] == others[b'];
      }
    }
    forall a | 0 <= a < |q|
      ensures q[a] > 0.0
    {
      if a < i {
        assert q[a] == others[a];
      } else if a > i {
        assert q[a] == others[a - 1];
      } else if i == 0 {
        assert ps[1] == others[0];
      } else if i < |ps| - 1 {
        assert ps[i - 1] == others[i - 1] && ps[i + 1] == others[i];
      } else {
        assert ps[i - 1] == others[i - 1];
      }
    }
  }

  /** Taking an item out of an ordered collection leaves it ordered. */
  lemma RemoveKeepsOrder(ps: seq<real>, i: nat)
    requires i < |ps|
    requires Ordered(ps)
    ensures Ordered(Remove(ps, i))
  {
    var r := Remove(ps, i);
    forall a, b | 0 <= a < b < |r|
      ensures r[a] < r[b]
    {
      var a' := if a < i then a else a + 1;
      var b' := if b < i then b else b + 1;
      assert r[a] == ps[a'] && r[b] == ps[b'];
    }
  }

  /** The allocations at the head, the tail and the middle of a short list. */
  lemma BoundaryAllocations(x: real)
    ensures NewPosition([x, 1024.0], 0) == 512.0
    ensures NewPosition([1024.0, x], 1) == 2048.0
    ensures NewPosition([1024.0, x, 2048.0], 1) == 1536.0
  {
  }
}
