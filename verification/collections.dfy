/** Lists used as insertion-ordered sets, the way the analyzer uses `Vec` with a
    `contains` check before each `push`, and `HashSet` whose order it never relies on. */
module Collections {

  /** No element occurs twice. */
  predicate NoDups<T(==,!new)>(xs: seq<T>) {
    forall i, j :: 0 <= i < j < |xs| ==> xs[i] != xs[j]
  }

  /** Append `x` unless it is already present (a `HashSet::insert`, or a guarded `push`). */
  function Insert<T(==,!new)>(xs: seq<T>, x: T): (r: seq<T>)
    ensures x in r
    ensures forall y :: y in r <==> y in xs || y == x
    ensures xs <= r && |r| <= |xs| + 1
    ensures NoDups(xs) ==> NoDups(r)
  {
    if x in xs then xs else xs + [x]
  }

  /** Insert each element of `ys` in turn. */
  function InsertAll<T(==,!new)>(xs: seq<T>, ys: seq<T>): (r: seq<T>)
    ensures forall y :: y in r <==> y in xs || y in ys
    ensures xs <= r
    ensures NoDups(xs) ==> NoDups(r)
    decreases |ys|
  {
    if |ys| == 0 then xs else InsertAll(Insert(xs, ys[0]), ys[1..])
  }

  /** The elements of `xs` that are not in `drop`, in order. */
  function Without<T(==,!new)>(xs: seq<T>, drop: set<T>): (r: seq<T>)
    ensures forall y :: y in r <==> y in xs && y !in drop
    ensures NoDups(xs) ==> NoDups(r)
    ensures |r| <= |xs|
  {
    if |xs| == 0 then []
    else if xs[0] in drop then Without(xs[1..], drop)
    else
      var rest := Without(xs[1..], drop);
      assert NoDups(xs) ==> xs[0] !in xs[1..];
      [xs[0]] + rest
  }

  /** A subset is no larger, and a proper subset is smaller. */
  lemma {:induction false} SubsetCard<T>(a: set<T>, b: set<T>)
    requires a <= b
    ensures |a| <= |b|
    ensures a < b ==> |a| < |b|
    decreases |b|
  {
    if b != {} {
      var x :| x in b;
      SubsetCard(a - {x}, b - {x});
      if x in a {
        assert a == (a - {x}) + {x};
      } else {
        assert a - {x} == a;
      }
    }
  }

  /** Removing one element of a finite set strictly shrinks what is left of a universe. */
  lemma RemainingShrinks<T>(universe: set<T>, visited: set<T>, x: T)
    requires x in universe && x !in visited
    ensures |universe - (visited + {x})| < |universe - visited|
  {
    assert x in universe - visited;
    SubsetCard(universe - (visited + {x}), universe - visited);
  }

  /** A larger visited set leaves no more of a universe. */
  lemma RemainingMonotone<T>(universe: set<T>, small: set<T>, large: set<T>)
    requires small <= large
    ensures |universe - large| <= |universe - small|
  {
    SubsetCard(universe - large, universe - small);
  }
}
