/**
  The list updates the React contexts and forms apply to their state:
  removing every entry with a given id (`list.filter(x => x.id !== id)`),
  replacing the entries with a given id (`list.map(x => x.id === id ? y : x)`)
  and dropping the element at an index (`list.filter((_, i) => i !== index)`).
 */
module KeyedLists {

  /** Some entry of `xs` has id `id`. */
  predicate HasId<T>(xs: seq<T>, id: int, idOf: T -> int) {
    exists i :: 0 <= i < |xs| && idOf(xs[i]) == id
  }

  /** Number of entries of `xs` with id `id`. */
  function CountId<T>(xs: seq<T>, id: int, idOf: T -> int): (n: nat)
    ensures n <= |xs|
  {
    if xs == [] then 0
    else CountId(xs[..|xs| - 1], id, idOf) + (if idOf(xs[|xs| - 1]) == id then 1 else 0)
  }

  /** `xs.filter(x => x.id !== id)`. */
  function RemoveId<T>(xs: seq<T>, id: int, idOf: T -> int): (r: seq<T>)
    ensures |r| <= |xs|
    ensures forall k :: 0 <= k < |r| ==> idOf(r[k]) != id
    ensures forall k :: 0 <= k < |r| ==> r[k] in xs
  {
    if xs == [] then []
    else
      var front := RemoveId(xs[..|xs| - 1], id, idOf);
      if idOf(xs[|xs| - 1]) == id then front else front + [xs[|xs| - 1]]
  }

  /** Removal drops exactly the entries carrying the id, and keeps every
      other entry in its order. */
  lemma {:induction false} RemoveIdCount<T>(xs: seq<T>, id: int, idOf: T -> int)
    ensures |RemoveId(xs, id, idOf)| == |xs| - CountId(xs, id, idOf)
  {
    if xs != [] {
      RemoveIdCount(xs[..|xs| - 1], id, idOf);
    }
  }

  /** Every entry with a different id survives removal. */
  lemma {:induction false} RemoveIdKeepsOthers<T>(xs: seq<T>, id: int, idOf: T -> int, x: T)
    requires x in xs && idOf(x) != id
    ensures x in RemoveId(xs, id, idOf)
  {
    var front := xs[..|xs| - 1];
    if x == xs[|xs| - 1] {
    } else {
      assert xs == front + [xs[|xs| - 1]];
      assert x in front;
      RemoveIdKeepsOthers(front, id, idOf, x);
    }
  }

  /** Removing an id no entry carries leaves the list as it was. */
  lemma {:induction false} RemoveUnknownId<T>(xs: seq<T>, id: int, idOf: T -> int)
    requires !HasId(xs, id, idOf)
    ensures RemoveId(xs, id, idOf) == xs
  {
    if xs != [] {
      var front := xs[..|xs| - 1];
      assert !HasId(front, id, idOf) by {
        forall i | 0 <= i < |front| ensures idOf(front[i]) != id {
          assert front[i] == xs[i];
        }
      }
      RemoveUnknownId(front, id, idOf);
      assert xs == front + [xs[|xs| - 1]];
    }
  }

  /** Removal distributes over concatenation, so removing after an append
      is the same as appending after a removal, for an entry without the id. */
  lemma {:induction false} RemoveIdAppend<T>(xs: seq<T>, ys: seq<T>, id: int, idOf: T -> int)
    ensures RemoveId(xs + ys, id, idOf) == RemoveId(xs, id, idOf) + RemoveId(ys, id, idOf)
  {
    if ys == [] {
      assert xs + ys == xs;
    } else {
      var ys' := ys[..|ys| - 1];
      assert (xs + ys)[..|xs + ys| - 1] == xs + ys';
      RemoveIdAppend(xs, ys', id, idOf);
    }
  }

  /** `xs.map(x => x.id === id ? y : x)`. */
  function ReplaceId<T>(xs: seq<T>, id: int, y: T, idOf: T -> int): (r: seq<T>)
    ensures |r| == |xs|
    ensures forall k :: 0 <= k < |xs| ==> r[k] == if idOf(xs[k]) == id then y else xs[k]
  {
    seq(|xs|, k requires 0 <= k < |xs| => if idOf(xs[k]) == id then y else xs[k])
  }

  /** Replacing an id no entry carries leaves the list as it was. */
  lemma ReplaceUnknownId<T>(xs: seq<T>, id: int, y: T, idOf: T -> int)
    requires !HasId(xs, id, idOf)
    ensures ReplaceId(xs, id, y, idOf) == xs
  {
  }

  /** An update whose new entry keeps the id changes only the entries with
      that id: removing the id afterwards leaves the same list as removing
      it before, and as many entries carry the id as before. */
  lemma {:induction false} ReplaceKeepsOthers<T>(xs: seq<T>, id: int, y: T, idOf: T -> int)
    requires idOf(y) == id
    ensures RemoveId(ReplaceId(xs, id, y, idOf), id, idOf) == RemoveId(xs, id, idOf)
    ensures CountId(ReplaceId(xs, id, y, idOf), id, idOf) == CountId(xs, id, idOf)
  {
    if xs != [] {
      var front := xs[..|xs| - 1];
      var r := ReplaceId(xs, id, y, idOf);
      assert r[..|r| - 1] == ReplaceId(front, id, y, idOf);
      ReplaceKeepsOthers(front, id, y, idOf);
    }
  }

  /** The entries of `xs` satisfying `p`, in order (a list comprehension
      with a condition, or `list.filter(p)`). */
  function Filter<T>(xs: seq<T>, p: T -> bool): (r: seq<T>)
    ensures |r| <= |xs|
    ensures forall k :: 0 <= k < |r| ==> r[k] in xs && p(r[k])
    ensures forall k :: 0 <= k < |xs| && p(xs[k]) ==> xs[k] in r
  {
    if xs == [] then []
    else
      var front := Filter(xs[..|xs| - 1], p);
      assert xs == xs[..|xs| - 1] + [xs[|xs| - 1]];
      if p(xs[|xs| - 1]) then front + [xs[|xs| - 1]] else front
  }

  /** Filtering by a condition and by its negation splits a list: every
      entry lands in exactly one part, and the sizes add up. */
  lemma {:induction false} FilterPartition<T>(xs: seq<T>, p: T -> bool, q: T -> bool)
    requires forall x :: q(x) == !p(x)
    ensures |Filter(xs, p)| + |Filter(xs, q)| == |xs|
    ensures multiset(Filter(xs, p)) + multiset(Filter(xs, q)) == multiset(xs)
  {
    if xs != [] {
      var front, last := xs[..|xs| - 1], xs[|xs| - 1];
      FilterPartition(front, p, q);
      assert xs == front + [last];
      FilterSnoc(front, last, p);
      FilterSnoc(front, last, q);
      assert q(last) == !p(last);
      PartitionSnoc(Filter(front, p), Filter(front, q), front, last, p(last),
        Filter(xs, p), Filter(xs, q));
    }
  }

  /** A split of `front` extends to a split of `front + [last]` when `last`
      joins exactly one of the two parts. */
  lemma PartitionSnoc<T>(a: seq<T>, b: seq<T>, front: seq<T>, last: T, toA: bool, a': seq<T>, b': seq<T>)
    requires |a| + |b| == |front| && multiset(a) + multiset(b) == multiset(front)
    requires a' == (if toA then a + [last] else a)
    requires b' == (if toA then b else b + [last])
    ensures |a'| + |b'| == |front + [last]|
    ensures multiset(a') + multiset(b') == multiset(front + [last])
  {
  }

  /** Filtering a list with one more entry at the end keeps that entry
      exactly when it satisfies the condition. */
  lemma FilterSnoc<T>(xs: seq<T>, x: T, p: T -> bool)
    ensures Filter(xs + [x], p) == if p(x) then Filter(xs, p) + [x] else Filter(xs, p)
  {
    assert (xs + [x])[..|xs + [x]| - 1] == xs;
  }

  /** A list that agrees with `xs` everywhere but at `index`, where it
      holds `x`, is `xs` updated at `index`. */
  lemma SameExceptAt<T>(xs: seq<T>, ys: seq<T>, index: nat, x: T)
    requires |ys| == |xs| && index < |xs| && ys[index] == x
    requires forall k :: 0 <= k < |xs| && k != index ==> ys[k] == xs[k]
    ensures ys == xs[index := x]
  {
  }

  /** Putting an entry the list does not hold in place of another keeps
      the entries pairwise distinct. */
  lemma ReplaceWithNewKeepsDistinct<T>(xs: seq<T>, index: nat, x: T)
    requires Distinct(xs)
    requires index < |xs| && x !in xs
    ensures Distinct(xs[index := x])
  {
  }

  /** No entry appears twice. */
  ghost predicate Distinct<T>(xs: seq<T>) {
    forall i, j :: 0 <= i < j < |xs| ==> xs[i] != xs[j]
  }

  /** `xs.filter((_, i) => i !== index)`. */
  function RemoveIndex<T>(xs: seq<T>, index: int): (r: seq<T>)
    ensures 0 <= index < |xs| ==> |r| == |xs| - 1
    ensures !(0 <= index < |xs|) ==> r == xs
    ensures 0 <= index < |xs| ==> r[..index] == xs[..index] && r[index..] == xs[index + 1..]
  {
    if 0 <= index < |xs| then xs[..index] + xs[index + 1..] else xs
  }
}
