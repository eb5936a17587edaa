/**
 Seat coordinates of the fixed 5 x 6 auditorium grid, and the two operations
 the booking code performs on Python lists of seats: membership and
 `list.remove`, which deletes the first occurrence of a value.
 */
module Seats {

  /** Rows are labelled A..E on screen. */
  const Rows: int := 5
  /** Columns are labelled 1..6 on screen. */
  const Cols: int := 6

  /** A `(row, col)` tuple; equality is structural, as for Python tuples. */
  datatype Seat = Seat(row: int, col: int)

  predicate InGrid(s: Seat) {
    0 <= s.row < Rows && 0 <= s.col < Cols
  }

  /** The coordinates the seat dialog creates a button for. */
  function Grid(): (g: set<Seat>)
    ensures forall s :: s in g <==> InGrid(s)
  {
    set r, c | 0 <= r < Rows && 0 <= c < Cols :: Seat(r, c)
  }

  /** No value occurs twice in the list. */
  predicate NoDup<T(==)>(xs: seq<T>) {
    forall i, j :: 0 <= i < j < |xs| ==> xs[i] != xs[j]
  }

  /** The position of the first occurrence of `x` in the list. */
  function FirstIndex<T(==)>(xs: seq<T>, x: T): (i: nat)
    requires x in xs
    ensures i < |xs| && xs[i] == x && x !in xs[..i]
  {
    if xs[0] == x then 0 else 1 + FirstIndex(xs[1..], x)
  }

  /**
   Python's `xs.remove(x)`: the list without the first occurrence of `x`, the
   other values keeping their order. Python raises ValueError when `x` is
   absent; callers here never do that.
   */
  function RemoveFirst<T(==)>(xs: seq<T>, x: T): (r: seq<T>)
    requires x in xs
    ensures |r| == |xs| - 1
    ensures multiset(r) == multiset(xs) - multiset{x}
    ensures exists i :: 0 <= i < |xs| && xs[i] == x && x !in xs[..i] && r == xs[..i] + xs[i + 1..]
  {
    var i := FirstIndex(xs, x);
    assert xs == xs[..i] + [xs[i]] + xs[i + 1..];
    xs[..i] + xs[i + 1..]
  }

  /** Removal keeps every value other than `x`, and adds none. */
  lemma RemoveFirstKeepsOthers<T>(xs: seq<T>, x: T, y: T)
    requires x in xs && y != x
    ensures y in RemoveFirst(xs, x) <==> y in xs
  {
    var r := RemoveFirst(xs, x);
    assert y in r <==> multiset(r)[y] > 0;
    assert y in xs <==> multiset(xs)[y] > 0;
  }

  /** In a duplicate-free list, removal removes `x` entirely and keeps the list duplicate-free. */
  lemma RemoveFirstNoDup<T>(xs: seq<T>, x: T)
    requires x in xs && NoDup(xs)
    ensures NoDup(RemoveFirst(xs, x)) && x !in RemoveFirst(xs, x)
  {
    var i := FirstIndex(xs, x);
    var r := RemoveFirst(xs, x);
    assert r == xs[..i] + xs[i + 1..];
    assert forall k :: 0 <= k < |r| ==> r[k] == xs[if k < i then k else k + 1];
    forall a, b | 0 <= a < b < |r|
      ensures r[a] != r[b]
    {
      assert r[a] == xs[if a < i then a else a + 1];
      assert r[b] == xs[if b < i then b else b + 1];
    }
    forall k | 0 <= k < |r|
      ensures r[k] != x
    {
      assert r[k] == xs[if k < i then k else k + 1];
    }
  }

  /** Removing the element a list starts with leaves the rest of the list. */
  lemma RemoveFirstOfHead<T>(xs: seq<T>, x: T)
    requires |xs| > 0 && xs[0] == x
    ensures RemoveFirst(xs, x) == xs[1..]
  {
    assert FirstIndex(xs, x) == 0;
  }

  /** Removing a value that was just appended to a list not holding it gives the list back. */
  lemma RemoveFirstOfAppended<T>(xs: seq<T>, x: T)
    requires x !in xs
    ensures RemoveFirst(xs + [x], x) == xs
  {
    var ys := xs + [x];
    var i := FirstIndex(ys, x);
    assert forall k :: 0 <= k < |xs| ==> ys[k] == xs[k];
    assert i == |xs|;
    assert ys[..i] == xs;
  }

  /** Appending a value not yet in a duplicate-free list keeps it duplicate-free. */
  lemma AppendFreshNoDup<T>(xs: seq<T>, x: T)
    requires NoDup(xs) && x !in xs
    ensures NoDup(xs + [x])
  {
  }

  /** Concatenating two duplicate-free lists with no common value gives a duplicate-free list. */
  lemma ConcatDisjointNoDup<T>(xs: seq<T>, ys: seq<T>)
    requires NoDup(xs) && NoDup(ys)
    requires forall y :: y in ys ==> y !in xs
    ensures NoDup(xs + ys)
  {
    var zs := xs + ys;
    forall i, j | 0 <= i < j < |zs|
      ensures zs[i] != zs[j]
    {
      if j >= |xs| && i < |xs| {
        assert zs[j] == ys[j - |xs|];
        assert zs[j] in ys;
      } else if i >= |xs| {
        assert zs[i] == ys[i - |xs|] && zs[j] == ys[j - |xs|];
      }
    }
  }
}
