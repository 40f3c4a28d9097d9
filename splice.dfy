/** Sequence primitives for the in-place array edits of the board view:
    `Array.prototype.splice(i, 1)` (Remove) and `splice(start, 0, x)` (Insert
    at SpliceStart); and Map, the field projection (ids, positions) that the
    `findIndex` callbacks and the position rule read. */
module Splice {

  /** The index that ECMAScript's `splice` acts on for a `start` argument on an
      array of length `len`: a negative start counts back from the end and is
      clamped at 0, a start past the end is clamped at `len`. */
  function SpliceStart(len: nat, start: int): (k: nat)
    ensures k <= len
    ensures 0 <= start <= len ==> k == start
    ensures start == -1 && len > 0 ==> k == len - 1
    ensures start < 0 && len + start <= 0 ==> k == 0
    ensures start > len ==> k == len
  {
    if start < 0 then (if len + start < 0 then 0 else len + start)
    else if start > len then len
    else start
  }

  /** `s.splice(i, 1)`: the sequence without its element at index `i`. */
  function Remove<T>(s: seq<T>, i: nat): (r: seq<T>)
    requires i < |s|
    ensures |r| == |s| - 1
    ensures forall j :: 0 <= j < i ==> r[j] == s[j]
    ensures forall j :: i <= j < |r| ==> r[j] == s[j + 1]
    ensures multiset(r) + multiset{s[i]} == multiset(s)
  {
    assert s == s[..i] + [s[i]] + s[i + 1..];
    s[..i] + s[i + 1..]
  }

  /** `s.splice(i, 0, x)` for an index already inside `0..|s|`. */
  function Insert<T>(s: seq<T>, i: nat, x: T): (r: seq<T>)
    requires i <= |s|
    ensures |r| == |s| + 1 && r[i] == x
    ensures forall j :: 0 <= j < i ==> r[j] == s[j]
    ensures forall j :: i < j < |r| ==> r[j] == s[j - 1]
    ensures multiset(r) == multiset(s) + multiset{x}
  {
    assert s == s[..i] + s[i..];
    s[..i] + [x] + s[i..]
  }

  /** Removing what was just inserted gives back the original sequence. */
  lemma RemoveInsert<T>(s: seq<T>, i: nat, x: T)
    requires i <= |s|
    ensures Remove(Insert(s, i, x), i) == s
  {
    var r := Remove(Insert(s, i, x), i);
    assert forall j :: 0 <= j < |s| ==> r[j] == s[j];
  }

  /** Putting a removed element back where it was gives back the original sequence. */
  lemma InsertRemove<T>(s: seq<T>, i: nat)
    requires i < |s|
    ensures Insert(Remove(s, i), i, s[i]) == s
  {
    var r := Insert(Remove(s, i), i, s[i]);
    assert forall j :: 0 <= j < |s| ==> r[j] == s[j];
  }

  /** Taking the element at i out and putting x in at t, with t an index of
      the sequence before the removal: x ends at t, which is directly after
      the element that was at t when it moved forward and directly before it
      when it moved backward; the other elements keep their order. */
  lemma MoveWithin<T>(s: seq<T>, i: nat, t: nat, x: T)
    requires i < |s| && t < |s|
    ensures var r := Insert(Remove(s, i), t, x);
            && |r| == |s| && r[t] == x
            && multiset(r) + multiset{s[i]} == multiset(s) + multiset{x}
            && (i < t ==> r[t - 1] == s[t])
            && (t < i ==> r[t + 1] == s[t])
            && Remove(r, t) == Remove(s, i)
  {
    var rest := Remove(s, i);
    var r := Insert(rest, t, x);
    RemoveInsert(rest, t, x);
    if i < t {
      assert r[t - 1] == rest[t - 1] == s[t];
    }
    if t < i {
      assert r[t + 1] == rest[t] == s[t];
    }
  }

  /** A second assignment to the same index overrides the first. */
  lemma UpdateTwice<T>(s: seq<T>, i: nat, a: T, b: T)
    requires i < |s|
    ensures s[i := a][i := b] == s[i := b]
  {
    var r, t := s[i := a][i := b], s[i := b];
    assert forall j :: 0 <= j < |s| ==> r[j] == t[j];
  }

  lemma UpdateSingleton<T>(x: T, y: T)
    ensures [x][0 := y] == [y]
  {
  }

  /** The field `f` of every element, in order. */
  function Map<T, U>(f: T -> U, s: seq<T>): (r: seq<U>)
    ensures |r| == |s|
    ensures forall j :: 0 <= j < |s| ==> r[j] == f(s[j])
  {
    seq(|s|, j requires 0 <= j < |s| => f(s[j]))
  }

  lemma MapRemove<T, U>(f: T -> U, s: seq<T>, i: nat)
    requires i < |s|
    ensures Map(f, Remove(s, i)) == Remove(Map(f, s), i)
  {
    var a, b := Map(f, Remove(s, i)), Remove(Map(f, s), i);
    assert |a| == |b|;
    assert forall j :: 0 <= j < |a| ==> a[j] == b[j];
  }

  lemma MapInsert<T, U>(f: T -> U, s: seq<T>, i: nat, x: T)
    requires i <= |s|
    ensures Map(f, Insert(s, i, x)) == Insert(Map(f, s), i, f(x))
  {
    var a, b := Map(f, Insert(s, i, x)), Insert(Map(f, s), i, f(x));
    assert |a| == |b|;
    assert forall j :: 0 <= j < |a| ==> a[j] == b[j];
  }
}
