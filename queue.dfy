/**
 * The bounded, optionally duplicate-free queue (packages/core/src/common/queue.ts).
 *
 * Items are kept oldest first. A push appends; with an equivalence the
 * earlier equivalent item is removed first; when the queue grows past its
 * maximum size the oldest item is dropped.
 */
module Queues {
  import opened Wrappers

  /** JavaScript's `Number.MAX_SAFE_INTEGER`, the size used when no positive maximum is given. */
  const MaxSafeInteger: nat := 9007199254740991

  /** Constructor option normalisation: only a positive `maxSize` bounds the queue. */
  function NormalizeMaxSize(maxSize: Option<int>): (r: nat)
    ensures r > 0
    ensures maxSize.Some? && maxSize.value > 0 ==> r == maxSize.value
    ensures maxSize.None? || maxSize.value <= 0 ==> r == MaxSafeInteger
  {
    if maxSize.Some? && maxSize.value > 0 then maxSize.value else MaxSafeInteger
  }

  /** `findIndex`: the first position whose item is equivalent to `x`, or -1. */
  function FindIndex<T>(items: seq<T>, x: T, eq: (T, T) -> bool): (r: int)
    ensures -1 <= r < |items|
    ensures r >= 0 ==> eq(x, items[r]) && forall j | 0 <= j < r :: !eq(x, items[j])
    ensures r == -1 ==> forall j | 0 <= j < |items| :: !eq(x, items[j])
  {
    if items == [] then -1
    else if eq(x, items[0]) then 0
    else
      var k := FindIndex(items[1..], x, eq);
      if k == -1 then -1 else k + 1
  }

  /** `splice(index, 1)`. */
  function RemoveAt<T>(items: seq<T>, index: nat): seq<T>
    requires index < |items|
  {
    items[..index] + items[index + 1..]
  }

  /** One iteration of `push`'s loop. */
  function PushOne<T>(items: seq<T>, x: T, maxSize: nat, equivalent: Option<(T, T) -> bool>): seq<T> {
    var removed :=
      if equivalent.Some? then
        var index := FindIndex(items, x, equivalent.value);
        if index != -1 then RemoveAt(items, index) else items
      else items;
    var appended := removed + [x];
    if |appended| > maxSize then appended[1..] else appended
  }

  /** `push(...xs)`: the items pushed one at a time, in order. */
  function PushAll<T>(items: seq<T>, xs: seq<T>, maxSize: nat, equivalent: Option<(T, T) -> bool>): seq<T>
    decreases |xs|
  {
    if xs == [] then items else PushAll(PushOne(items, xs[0], maxSize, equivalent), xs[1..], maxSize, equivalent)
  }

  /** The last `n` items of `s` (all of them when there are fewer). */
  function Last<T>(s: seq<T>, n: nat): (r: seq<T>)
    ensures |r| <= n && |r| <= |s|
  {
    if |s| <= n then s else s[|s| - n..]
  }

  predicate NoDuplicates<T(==)>(s: seq<T>) {
    forall i, j | 0 <= i < j < |s| :: s[i] != s[j]
  }

  /** The equivalence used where duplicates are compared by `===`. */
  ghost predicate IsEquality<T(!new)>(eq: (T, T) -> bool) {
    forall a, b :: eq(a, b) <==> a == b
  }

  /** One push never lets the queue grow past its maximum size, and the pushed item becomes the newest. */
  lemma PushOneBounded<T>(items: seq<T>, x: T, maxSize: nat, equivalent: Option<(T, T) -> bool>)
    requires 0 < maxSize && |items| <= maxSize
    ensures |PushOne(items, x, maxSize, equivalent)| <= maxSize
    ensures |PushOne(items, x, maxSize, equivalent)| > 0
    ensures PushOne(items, x, maxSize, equivalent)[|PushOne(items, x, maxSize, equivalent)| - 1] == x
  {
  }

  /** After any push the queue holds at most `maxSize` items, and the last pushed item is the newest. */
  lemma {:induction false} PushAllBounded<T>(items: seq<T>, xs: seq<T>, maxSize: nat, equivalent: Option<(T, T) -> bool>)
    requires 0 < maxSize && |items| <= maxSize
    ensures |PushAll(items, xs, maxSize, equivalent)| <= maxSize
    ensures xs != [] ==> |PushAll(items, xs, maxSize, equivalent)| > 0
    ensures xs != [] ==> PushAll(items, xs, maxSize, equivalent)[|PushAll(items, xs, maxSize, equivalent)| - 1] == xs[|xs| - 1]
    decreases |xs|
  {
    if xs != [] {
      PushOneBounded(items, xs[0], maxSize, equivalent);
      PushAllBounded(PushOne(items, xs[0], maxSize, equivalent), xs[1..], maxSize, equivalent);
    }
  }

  /** Pushing a sequence equals pushing its first part, then the rest. */
  lemma {:induction false} PushAllAppend<T>(items: seq<T>, xs: seq<T>, ys: seq<T>, maxSize: nat, equivalent: Option<(T, T) -> bool>)
    ensures PushAll(items, xs + ys, maxSize, equivalent) == PushAll(PushAll(items, xs, maxSize, equivalent), ys, maxSize, equivalent)
    decreases |xs|
  {
    if xs != [] {
      assert (xs + ys)[0] == xs[0];
      assert (xs + ys)[1..] == xs[1..] + ys;
      PushAllAppend(PushOne(items, xs[0], maxSize, equivalent), xs[1..], ys, maxSize, equivalent);
    } else {
      assert xs + ys == ys;
    }
  }

  /** Without an equivalence, one push keeps duplicates and drops only from the oldest end. */
  lemma PushOneKeepsDuplicates<T>(items: seq<T>, x: T, maxSize: nat)
    requires |items| <= maxSize
    ensures PushOne(items, x, maxSize, None) == Last(items + [x], maxSize)
  {
  }

  lemma LastOfLast<T>(s: seq<T>, t: seq<T>, n: nat)
    ensures Last(Last(s, n) + t, n) == Last(s + t, n)
  {
    if |s| > n {
      assert s + t == s[..|s| - n] + (s[|s| - n..] + t);
    }
  }

  /**
   * Without an equivalence every pushed item is kept (duplicates included);
   * overflow is removed from the oldest end, so the queue is the newest
   * `maxSize` items of everything pushed.
   */
  lemma {:induction false} PushAllWithoutEquivalent<T>(items: seq<T>, xs: seq<T>, maxSize: nat)
    requires |items| <= maxSize
    ensures PushAll(items, xs, maxSize, None) == Last(items + xs, maxSize)
    decreases |xs|
  {
    if xs != [] {
      var next := PushOne(items, xs[0], maxSize, None);
      PushOneKeepsDuplicates(items, xs[0], maxSize);
      PushAllWithoutEquivalent(next, xs[1..], maxSize);
      LastOfLast(items + [xs[0]], xs[1..], maxSize);
      assert items + [xs[0]] + xs[1..] == items + xs;
    }
  }

  /** Removing one item of a duplicate-free sequence leaves it duplicate-free and without that item. */
  lemma RemoveAtNoDuplicates<T>(items: seq<T>, index: nat)
    requires index < |items| && NoDuplicates(items)
    ensures NoDuplicates(RemoveAt(items, index))
    ensures items[index] !in RemoveAt(items, index)
    ensures forall y | y in items && y != items[index] :: y in RemoveAt(items, index)
  {
    var r := RemoveAt(items, index);
    forall i, j | 0 <= i < j < |r| ensures r[i] != r[j] {
      var i' := if i < index then i else i + 1;
      var j' := if j < index then j else j + 1;
      assert r[i] == items[i'] && r[j] == items[j'];
    }
    forall y | y in items && y != items[index] ensures y in r {
      var k :| 0 <= k < |items| && items[k] == y;
      if k < index { assert r[k] == y; } else { assert r[k - 1] == y; }
    }
  }

  /** With `===` as the equivalence, a push leaves no duplicates: the old occurrence is removed. */
  lemma PushOneNoDuplicates<T(!new)>(items: seq<T>, x: T, maxSize: nat, eq: (T, T) -> bool)
    requires IsEquality(eq) && NoDuplicates(items)
    ensures NoDuplicates(PushOne(items, x, maxSize, Some(eq)))
  {
    var index := FindIndex(items, x, eq);
    var removed := if index != -1 then RemoveAt(items, index) else items;
    if index != -1 {
      RemoveAtNoDuplicates(items, index);
    }
    assert x !in removed;
    var appended := removed + [x];
    assert NoDuplicates(appended);
    if |appended| > maxSize {
      assert NoDuplicates(appended[1..]) by {
        forall i, j | 0 <= i < j < |appended| - 1 ensures appended[1..][i] != appended[1..][j] {
          assert appended[1..][i] == appended[i + 1] && appended[1..][j] == appended[j + 1];
        }
      }
    }
  }

  /** With `===` as the equivalence, the queue never holds duplicates, whatever is pushed. */
  lemma {:induction false} PushAllNoDuplicates<T(!new)>(items: seq<T>, xs: seq<T>, maxSize: nat, eq: (T, T) -> bool)
    requires IsEquality(eq) && NoDuplicates(items)
    ensures NoDuplicates(PushAll(items, xs, maxSize, Some(eq)))
    decreases |xs|
  {
    if xs != [] {
      PushOneNoDuplicates(items, xs[0], maxSize, eq);
      PushAllNoDuplicates(PushOne(items, xs[0], maxSize, Some(eq)), xs[1..], maxSize, eq);
    }
  }

  /** The three scenarios of the queue's test file. */
  lemma TestScenarios()
    ensures |PushAll([], [1, 2, 3, 4], 3, None)| == 3
    ensures PushAll([], [1, 1], 3, Some((a: int, b: int) => a == b)) == [1]
    ensures PushAll([], [1, 2, 3, 1], 3, Some((a: int, b: int) => a == b)) == [2, 3, 1]
  {
    var eq := (a: int, b: int) => a == b;
    PushAllWithoutEquivalent([], [1, 2, 3, 4], 3);
    assert PushOne([], 1, 3, Some(eq)) == [1];
    assert PushOne([1], 1, 3, Some(eq)) == [1];
    assert PushOne([1], 2, 3, Some(eq)) == [1, 2];
    assert PushOne([1, 2], 3, 3, Some(eq)) == [1, 2, 3];
    assert PushOne([1, 2, 3], 1, 3, Some(eq)) == [2, 3, 1];
  }

  class Queue<T> {
    /** `_items`, oldest first. */
    var items: seq<T>
    const maxSize: nat
    const equivalent: Option<(T, T) -> bool>

    ghost predicate Valid()
      reads this
    {
      0 < maxSize && |items| <= maxSize
    }

    constructor (maxSizeOption: Option<int>, equivalentOption: Option<(T, T) -> bool>)
      ensures Valid()
      ensures items == [] && maxSize == NormalizeMaxSize(maxSizeOption) && equivalent == equivalentOption
    {
      items := [];
      maxSize := NormalizeMaxSize(maxSizeOption);
      equivalent := equivalentOption;
    }

    /** `push(...xs)`: the loop over the pushed items. */
    method Push(xs: seq<T>)
      requires Valid()
      modifies this
      ensures Valid()
      ensures items == PushAll(old(items), xs, maxSize, equivalent)
      ensures xs != [] ==> |items| > 0 && items[|items| - 1] == xs[|xs| - 1]
    {
      PushAllBounded(items, xs, maxSize, equivalent);
      for k := 0 to |xs|
        invariant Valid()
        invariant PushAll(items, xs[k..], maxSize, equivalent) == PushAll(old(items), xs, maxSize, equivalent)
      {
        assert xs[k..][0] == xs[k] && xs[k..][1..] == xs[k + 1..];
        PushItem(xs[k]);
      }
      assert xs[|xs|..] == [];
    }

    /** One iteration of `push`'s loop: remove the equivalent item in place, append, and drop the oldest when over size. */
    method PushItem(item: T)
      requires Valid()
      modifies this
      ensures Valid()
      ensures items == PushOne(old(items), item, maxSize, equivalent)
    {
      PushOneBounded(items, item, maxSize, equivalent);
      if equivalent.Some? {
        var index := FindIndex(items, item, equivalent.value);
        if index != -1 {
          items := items[..index] + items[index + 1..];
        }
      }
      items := items + [item];
      if |items| > maxSize {
        items := items[1..];
      }
    }

    /** The `items` getter: a copy, oldest first (a Dafny sequence is a value, so the copy is implicit). */
    function Items(): (r: seq<T>)
      requires Valid()
      reads this
      ensures |r| <= maxSize
      ensures r == items
    {
      items
    }
  }
}
