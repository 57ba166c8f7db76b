/** The list operations the pallet applies to an account's student ids. */
module Lists {
  import opened Types

  ghost predicate NoDup<T>(list: seq<T>) {
    forall i, j :: 0 <= i < j < |list| ==> list[i] != list[j]
  }

  /** The first place at which `x` occurs. */
  function Position<T(==)>(list: seq<T>, x: T): (r: Option<nat>)
    ensures r.Some? <==> x in list
    ensures r.Some? ==> r.value < |list| && list[r.value] == x && x !in list[..r.value]
  {
    if list == [] then None
    else if list[0] == x then Some(0)
    else
      var rest := Position(list[1..], x);
      if rest.Some? then
        assert list[..rest.value + 1] == [list[0]] + list[1..][..rest.value];
        Some(rest.value + 1)
      else None
  }

  /** Removes position `i` by moving the last element into it. */
  function SwapRemove<T>(list: seq<T>, i: nat): (r: seq<T>)
    requires i < |list|
    ensures |r| == |list| - 1
    ensures forall k :: 0 <= k < |r| ==> r[k] == if k == i then list[|list| - 1] else list[k]
    ensures multiset(r) == multiset(list) - multiset{list[i]}
  {
    var last := |list| - 1;
    var moved := list[i := list[last]];
    assert multiset(moved) == multiset(list) - multiset{list[i]} + multiset{list[last]};
    assert moved == moved[..last] + [list[last]];
    assert multiset(moved[..last]) == multiset(moved) - multiset{list[last]};
    assert multiset(moved) - multiset{list[last]} == multiset(list) - multiset{list[i]};
    moved[..last]
  }

  /** Removes the first occurrence of `x`, if there is one. */
  function Without<T(==)>(list: seq<T>, x: T): seq<T> {
    var found := Position(list, x);
    if found.Some? then SwapRemove(list, found.value) else list
  }

  /** `now` is `was` without the first `x`, whose place the last element has taken. */
  ghost predicate FirstSwappedOut<T>(was: seq<T>, now: seq<T>, x: T) {
    exists i :: 0 <= i < |was| && was[i] == x && x !in was[..i] && SwappedOutAt(was, now, i)
  }

  ghost predicate SwappedOutAt<T>(was: seq<T>, now: seq<T>, i: nat)
    requires i < |was|
  {
    |now| == |was| - 1 && forall k :: 0 <= k < |now| ==> now[k] == if k == i then was[|was| - 1] else was[k]
  }

  /** An element that is there is swapped out; otherwise the list stays as it is. */
  lemma WithoutSwaps<T>(list: seq<T>, x: T)
    ensures x in list ==> FirstSwappedOut(list, Without(list, x), x)
    ensures x !in list ==> Without(list, x) == list
  {
    if x in list {
      var i := Position(list, x).value;
      assert SwappedOutAt(list, Without(list, x), i);
    }
  }

  /** On a list without repetitions, `Without` removes exactly `x`. */
  lemma WithoutExactly<T>(list: seq<T>, x: T)
    requires NoDup(list)
    ensures NoDup(Without(list, x))
    ensures forall y :: y in Without(list, x) <==> y in list && y != x
  {
    var found := Position(list, x);
    if found.Some? {
      var i := found.value;
      var r := SwapRemove(list, i);
      forall y ensures y in r <==> y in list && y != x {
        if y in list && y != x {
          var k :| 0 <= k < |list| && list[k] == y;
          assert r[if k == |list| - 1 then i else k] == y;
        }
      }
    }
  }

  /** The elements of a list as a set. */
  ghost function Elements<T>(list: seq<T>): set<T> {
    set x | x in list
  }

  /** The elements of a set in some order. */
  ghost function Listing<T(!new)>(xs: set<T>): (list: seq<T>)
    ensures NoDup(list) && Elements(list) == xs
  {
    if xs == {} then []
    else
      var x :| x in xs;
      var rest := Listing(xs - {x});
      assert x !in Elements(rest) && Elements([x] + rest) == {x} + Elements(rest);
      [x] + rest
  }

  lemma {:induction false} NoDupCardinality<T>(list: seq<T>)
    requires NoDup(list)
    ensures |Elements(list)| == |list|
  {
    if list != [] {
      var rest := list[1..];
      NoDupCardinality(rest);
      assert Elements(list) == Elements(rest) + {list[0]};
    }
  }

  /** Position by position, the elements of two lists are related by `r`. */
  ghost predicate Matched<A, B>(r: iset<(A, B)>, xs: seq<A>, ys: seq<B>) {
    |xs| == |ys| && forall i :: 0 <= i < |xs| ==> (xs[i], ys[i]) in r
  }

  lemma MatchedConcat<A, B>(r: iset<(A, B)>, xs: seq<A>, ys: seq<B>, xs': seq<A>, ys': seq<B>)
    requires Matched(r, xs, ys) && Matched(r, xs', ys')
    ensures Matched(r, xs + xs', ys + ys')
  {}

  /** `xs` is matched with the last elements of `all`. */
  ghost predicate MatchesTail<A, B>(r: iset<(A, B)>, xs: seq<A>, all: seq<B>) {
    |xs| <= |all| && Matched(r, xs, all[|all| - |xs|..])
  }

  lemma MatchesTailAppend<A, B>(r: iset<(A, B)>, xs: seq<A>, all: seq<B>, x: A, y: B)
    requires MatchesTail(r, xs, all) && (x, y) in r
    ensures MatchesTail(r, xs + [x], all + [y])
  {
    var from := |all| - |xs|;
    assert (all + [y])[from..] == all[from..] + [y];
  }

  lemma MatchesTailDrop<A, B>(r: iset<(A, B)>, xs: seq<A>, all: seq<B>)
    requires MatchesTail(r, xs, all) && xs != []
    ensures (xs[0], all[|all| - |xs|]) in r && MatchesTail(r, xs[1..], all)
  {
    var from := |all| - |xs|;
    assert all[from..][0] == all[from] && all[from..][1..] == all[from + 1..];
  }
}
