/**
 * The workspace root server (packages/workspace/src/node/default-workspace-server.ts).
 *
 * The recent-roots list is stored most recent first. `calculateRecentRoots`
 * turns it oldest first, pushes it and the new root through a duplicate-free
 * queue of at most five items, and turns the queue back. The reference
 * definition it is proved against: the first five entries of
 * `[uri] + stored`, each root kept only at its first (most recent) position.
 */
module WorkspaceServer {
  import opened Wrappers
  import opened Queues

  /** The `maxSize` of the queue that builds the recent roots. */
  const MaxRecentRoots: nat := 5

  // ---------------------------------------------------------------------------
  // Sequence toolkit

  /** `Array.prototype.reverse`. */
  function Reverse<T>(s: seq<T>): (r: seq<T>)
    ensures |r| == |s|
  {
    if s == [] then [] else Reverse(s[1..]) + [s[0]]
  }

  /** The first `n` items of `s` (all of them when there are fewer). */
  function Take<T>(s: seq<T>, n: nat): (r: seq<T>)
    ensures |r| <= n && |r| <= |s|
  {
    if |s| <= n then s else s[..n]
  }

  /** `s` with every occurrence of `x` removed. */
  function Without<T(==)>(s: seq<T>, x: T): seq<T>
  {
    if s == [] then [] else (if s[0] == x then [] else [s[0]]) + Without(s[1..], x)
  }

  /** `s` with each item kept only at its first position. */
  function DedupFirst<T(==)>(s: seq<T>): seq<T>
  {
    if s == [] then [] else [s[0]] + Without(DedupFirst(s[1..]), s[0])
  }

  lemma {:induction false} ReverseAt<T>(s: seq<T>, k: nat)
    requires k < |s|
    ensures Reverse(s)[k] == s[|s| - 1 - k]
    decreases |s|
  {
    if k < |s| - 1 {
      ReverseAt(s[1..], k);
    }
  }

  lemma ReverseAppend<T>(a: seq<T>, b: seq<T>)
    ensures Reverse(a + b) == Reverse(b) + Reverse(a)
  {
    var l, r := Reverse(a + b), Reverse(b) + Reverse(a);
    forall k | 0 <= k < |l| ensures l[k] == r[k] {
      ReverseAt(a + b, k);
      if k < |b| { ReverseAt(b, k); } else { ReverseAt(a, k - |b|); }
    }
  }

  lemma ReverseReverse<T>(s: seq<T>)
    ensures Reverse(Reverse(s)) == s
  {
    forall k | 0 <= k < |s| ensures Reverse(Reverse(s))[k] == s[k] {
      ReverseAt(Reverse(s), k);
      ReverseAt(s, |s| - 1 - k);
    }
  }

  lemma ReverseNoDuplicates<T>(s: seq<T>)
    requires NoDuplicates(s)
    ensures NoDuplicates(Reverse(s))
  {
    forall i, j | 0 <= i < j < |s| ensures Reverse(s)[i] != Reverse(s)[j] {
      ReverseAt(s, i);
      ReverseAt(s, j);
    }
  }

  /** Reversing the newest `n` items gives the first `n` of the reversed sequence. */
  lemma ReverseLast<T>(s: seq<T>, n: nat)
    ensures Reverse(Last(s, n)) == Take(Reverse(s), n)
  {
    if |s| > n {
      var l, t := Reverse(Last(s, n)), Take(Reverse(s), n);
      forall k | 0 <= k < n ensures l[k] == t[k] {
        ReverseAt(s[|s| - n..], k);
        ReverseAt(s, k);
      }
    }
  }

  lemma {:induction false} WithoutMembership<T>(s: seq<T>, x: T, y: T)
    ensures y in Without(s, x) <==> y in s && y != x
    decreases |s|
  {
    if s != [] {
      WithoutMembership(s[1..], x, y);
      assert s == [s[0]] + s[1..];
    }
  }

  lemma {:induction false} WithoutAbsent<T>(s: seq<T>, x: T)
    requires x !in s
    ensures Without(s, x) == s
    decreases |s|
  {
    if s != [] {
      WithoutAbsent(s[1..], x);
      assert s == [s[0]] + s[1..];
    }
  }

  lemma {:induction false} WithoutAppend<T>(a: seq<T>, b: seq<T>, x: T)
    ensures Without(a + b, x) == Without(a, x) + Without(b, x)
    decreases |a|
  {
    if a != [] {
      assert (a + b)[1..] == a[1..] + b;
      WithoutAppend(a[1..], b, x);
    } else {
      assert a + b == b;
    }
  }

  lemma {:induction false} WithoutCommutes<T>(s: seq<T>, x: T, y: T)
    ensures Without(Without(s, x), y) == Without(Without(s, y), x)
    decreases |s|
  {
    if s != [] {
      WithoutCommutes(s[1..], x, y);
      var head := if s[0] == x then [] else [s[0]];
      WithoutAppend(head, Without(s[1..], x), y);
      var head' := if s[0] == y then [] else [s[0]];
      WithoutAppend(head', Without(s[1..], y), x);
    }
  }

  lemma {:induction false} WithoutTwice<T>(s: seq<T>, x: T)
    ensures Without(Without(s, x), x) == Without(s, x)
    decreases |s|
  {
    if s != [] {
      WithoutTwice(s[1..], x);
      var head := if s[0] == x then [] else [s[0]];
      WithoutAppend(head, Without(s[1..], x), x);
    }
  }

  lemma WithoutReverse<T>(s: seq<T>, x: T)
    ensures Reverse(Without(s, x)) == Without(Reverse(s), x)
    decreases |s|
  {
    if s != [] {
      var head := if s[0] == x then [] else [s[0]];
      WithoutReverse(s[1..], x);
      ReverseAppend(head, Without(s[1..], x));
      WithoutAppend(Reverse(s[1..]), [s[0]], x);
    }
  }

  /** In a duplicate-free sequence, removing a present item shortens it by exactly one. */
  lemma {:induction false} WithoutLength<T>(s: seq<T>, x: T)
    requires NoDuplicates(s)
    ensures x in s ==> |Without(s, x)| == |s| - 1
    ensures x !in s ==> |Without(s, x)| == |s|
    decreases |s|
  {
    if s != [] {
      assert NoDuplicates(s[1..]) by {
        forall i, j | 0 <= i < j < |s| - 1 ensures s[1..][i] != s[1..][j] {
          assert s[1..][i] == s[i + 1] && s[1..][j] == s[j + 1];
        }
      }
      WithoutLength(s[1..], x);
      if s[0] == x {
        assert x !in s[1..];
      }
      assert s == [s[0]] + s[1..];
    }
  }

  lemma {:induction false} WithoutNoDuplicates<T>(s: seq<T>, x: T)
    requires NoDuplicates(s)
    ensures NoDuplicates(Without(s, x))
    decreases |s|
  {
    if s != [] {
      assert NoDuplicates(s[1..]) by {
        forall i, j | 0 <= i < j < |s| - 1 ensures s[1..][i] != s[1..][j] {
          assert s[1..][i] == s[i + 1] && s[1..][j] == s[j + 1];
        }
      }
      WithoutNoDuplicates(s[1..], x);
      WithoutMembership(s[1..], x, s[0]);
      assert s[0] !in s[1..];
    }
  }

  /** Every item of `s` is in `DedupFirst(s)` and nothing else is; it holds no duplicates. */
  lemma {:induction false} DedupFirstProperties<T>(s: seq<T>)
    ensures NoDuplicates(DedupFirst(s))
    ensures forall y :: y in DedupFirst(s) <==> y in s
    decreases |s|
  {
    if s != [] {
      var rest := DedupFirst(s[1..]);
      DedupFirstProperties(s[1..]);
      WithoutNoDuplicates(rest, s[0]);
      WithoutMembership(rest, s[0], s[0]);
      forall y ensures y in DedupFirst(s) <==> y in s {
        WithoutMembership(rest, s[0], y);
        assert s == [s[0]] + s[1..];
      }
    }
  }

  lemma {:induction false} DedupFirstOfDistinct<T>(s: seq<T>)
    requires NoDuplicates(s)
    ensures DedupFirst(s) == s
    decreases |s|
  {
    if s != [] {
      assert NoDuplicates(s[1..]) by {
        forall i, j | 0 <= i < j < |s| - 1 ensures s[1..][i] != s[1..][j] {
          assert s[1..][i] == s[i + 1] && s[1..][j] == s[j + 1];
        }
      }
      DedupFirstOfDistinct(s[1..]);
      assert s[0] !in s[1..];
      WithoutAbsent(s[1..], s[0]);
    }
  }

  /** Removing an item before or after deduplicating gives the same result. */
  lemma {:induction false} DedupFirstWithout<T>(s: seq<T>, x: T)
    ensures DedupFirst(Without(s, x)) == Without(DedupFirst(s), x)
    decreases |s|
  {
    if s != [] {
      var b := s[0];
      DedupFirstWithout(s[1..], x);
      WithoutAppend([b], Without(DedupFirst(s[1..]), b), x);
      if b == x {
        assert Without(s, x) == Without(s[1..], x);
        assert Without([b], x) == [];
        WithoutTwice(DedupFirst(s[1..]), x);
      } else {
        WithoutCommutes(DedupFirst(s[1..]), x, b);
        assert Without(s, x) == [b] + Without(s[1..], x);
      }
    }
  }

  /** Once `x` has occurred, its later occurrences make no difference to the deduplicated result. */
  lemma {:induction false} DedupFirstAfterOccurrence<T>(a: seq<T>, x: T, b: seq<T>)
    ensures DedupFirst(a + [x] + Without(b, x)) == DedupFirst(a + [x] + b)
    decreases |a|
  {
    if a == [] {
      assert a + [x] + Without(b, x) == [x] + Without(b, x);
      assert a + [x] + b == [x] + b;
      DedupFirstWithout(b, x);
      WithoutTwice(DedupFirst(b), x);
    } else {
      assert (a + [x] + Without(b, x))[1..] == a[1..] + [x] + Without(b, x);
      assert (a + [x] + b)[1..] == a[1..] + [x] + b;
      DedupFirstAfterOccurrence(a[1..], x, b);
    }
  }

  // ---------------------------------------------------------------------------
  // The queue with `===` as its equivalence

  /** A push onto a duplicate-free queue with no size bound: the old occurrence moves to the newest end. */
  function MoveToNewest<T(==)>(u: seq<T>, x: T): seq<T> {
    Without(u, x) + [x]
  }

  function MoveAllToNewest<T(==)>(u: seq<T>, xs: seq<T>): seq<T>
    decreases |xs|
  {
    if xs == [] then u else MoveAllToNewest(MoveToNewest(u, xs[0]), xs[1..])
  }

  lemma MoveToNewestNoDuplicates<T>(u: seq<T>, x: T)
    requires NoDuplicates(u)
    ensures NoDuplicates(MoveToNewest(u, x))
  {
    WithoutNoDuplicates(u, x);
    WithoutMembership(u, x, x);
  }

  /** With `===`, `findIndex` finds an occurrence of `x` exactly when there is one. */
  lemma FindIndexIsEquality<T(!new)>(u: seq<T>, x: T, eq: (T, T) -> bool)
    requires IsEquality(eq)
    ensures FindIndex(u, x, eq) == -1 ==> x !in u
    ensures FindIndex(u, x, eq) != -1 ==> u[FindIndex(u, x, eq)] == x
  {
    var index := FindIndex(u, x, eq);
    if index == -1 {
      forall j | 0 <= j < |u| ensures u[j] != x {
        assert !eq(x, u[j]);
      }
    } else {
      assert eq(x, u[index]);
    }
  }

  /** Removing the only occurrence of `x` is the same as filtering `x` out. */
  lemma {:induction false} RemoveOnlyOccurrence<T>(u: seq<T>, index: nat, x: T)
    requires index < |u| && u[index] == x && x !in u[..index] && x !in u[index + 1..]
    ensures RemoveAt(u, index) == Without(u, x)
    decreases index
  {
    var tail := u[1..];
    if index == 0 {
      WithoutAbsent(tail, x);
      assert RemoveAt(u, index) == tail;
    } else {
      assert u[0] == u[..index][0] && u[0] != x;
      var front, before := tail[..index - 1], u[..index];
      assert tail[index..] == u[index + 1..];
      assert x !in front by {
        forall j | 0 <= j < |front| ensures front[j] != x {
          assert front[j] == before[j + 1];
        }
      }
      RemoveOnlyOccurrence(tail, index - 1, x);
      assert RemoveAt(u, index) == [u[0]] + RemoveAt(tail, index - 1);
    }
  }

  /** In a duplicate-free sequence, the item at `index` occurs neither before nor after it. */
  lemma OnlyOccurrence<T>(u: seq<T>, index: nat)
    requires index < |u| && NoDuplicates(u)
    ensures u[index] !in u[..index] && u[index] !in u[index + 1..]
  {
    var pre, post := u[..index], u[index + 1..];
    forall j | 0 <= j < |pre| ensures pre[j] != u[index] {
      assert pre[j] == u[j];
    }
    forall j | 0 <= j < |post| ensures post[j] != u[index] {
      assert post[j] == u[index + 1 + j];
    }
  }

  /** With `===`, the queue's find-and-splice removes exactly the occurrences of `x` from a duplicate-free queue. */
  lemma SpliceIsWithout<T(!new)>(u: seq<T>, x: T, eq: (T, T) -> bool)
    requires IsEquality(eq) && NoDuplicates(u)
    ensures var index := FindIndex(u, x, eq);
            (if index != -1 then RemoveAt(u, index) else u) == Without(u, x)
  {
    var index := FindIndex(u, x, eq);
    FindIndexIsEquality(u, x, eq);
    if index == -1 {
      WithoutAbsent(u, x);
    } else {
      OnlyOccurrence(u, index);
      RemoveOnlyOccurrence(u, index, x);
    }
  }

  /** The size bound of one push: drop the oldest item when there are more than `maxSize`. */
  function Trim<T>(s: seq<T>, maxSize: nat): seq<T> {
    if |s| > maxSize then s[1..] else s
  }

  lemma PushOneWithEquality<T(!new)>(b: seq<T>, x: T, maxSize: nat, eq: (T, T) -> bool)
    requires IsEquality(eq) && NoDuplicates(b)
    ensures PushOne(b, x, maxSize, Some(eq)) == Trim(MoveToNewest(b, x), maxSize)
  {
    SpliceIsWithout(b, x, eq);
  }

  lemma LastOfLonger<T>(a: seq<T>, b: seq<T>, n: nat)
    requires |b| >= n
    ensures Last(a + b, n) == Last(b, n)
  {
    assert (a + b)[|a + b| - n..] == b[|b| - n..];
  }

  lemma SuffixNoDuplicates<T>(u: seq<T>, k: nat)
    requires k <= |u| && NoDuplicates(u)
    ensures NoDuplicates(u[k..])
  {
    forall i, j | 0 <= i < j < |u| - k ensures u[k..][i] != u[k..][j] {
      assert u[k..][i] == u[k + i] && u[k..][j] == u[k + j];
    }
  }

  /** A short queue is never cut by `Last`, and the bounded push trims exactly what `Last` would. */
  lemma TrimMoveShort<T>(u: seq<T>, x: T, maxSize: nat)
    requires NoDuplicates(u) && 0 < maxSize && |u| <= maxSize
    ensures Trim(MoveToNewest(u, x), maxSize) == Last(MoveToNewest(u, x), maxSize)
  {
    WithoutLength(u, x);
  }

  /** A long queue keeps its newest `maxSize` items; pushing `x` onto them or onto all of it ends the same. */
  lemma TrimMoveLong<T>(u: seq<T>, x: T, maxSize: nat)
    requires NoDuplicates(u) && 0 < maxSize && |u| > maxSize
    ensures Trim(MoveToNewest(Last(u, maxSize), x), maxSize) == Last(MoveToNewest(u, x), maxSize)
  {
    var p, b := u[..|u| - maxSize], u[|u| - maxSize..];
    assert u == p + b;
    SuffixNoDuplicates(u, |u| - maxSize);
    WithoutLength(b, x);
    WithoutAppend(p, b, x);
    if x in b {
      assert x !in p by {
        var k :| 0 <= k < |b| && b[k] == x;
        forall j | 0 <= j < |p| ensures p[j] != x {
          assert p[j] == u[j] && b[k] == u[|u| - maxSize + k];
        }
      }
      WithoutAbsent(p, x);
      LastOfLonger(p, Without(b, x) + [x], maxSize);
      assert Without(u, x) + [x] == p + (Without(b, x) + [x]);
    } else {
      WithoutAbsent(b, x);
      LastOfLonger(Without(p, x), b + [x], maxSize);
      assert Without(u, x) + [x] == Without(p, x) + (b + [x]);
    }
  }

  /** A bounded push keeps the queue equal to the newest `maxSize` items of the unbounded one. */
  lemma PushOneIsLastOfMove<T(!new)>(u: seq<T>, x: T, maxSize: nat, eq: (T, T) -> bool)
    requires IsEquality(eq) && NoDuplicates(u) && 0 < maxSize
    ensures PushOne(Last(u, maxSize), x, maxSize, Some(eq)) == Last(MoveToNewest(u, x), maxSize)
  {
    if |u| <= maxSize {
      PushOneWithEquality(u, x, maxSize, eq);
      TrimMoveShort(u, x, maxSize);
    } else {
      SuffixNoDuplicates(u, |u| - maxSize);
      PushOneWithEquality(Last(u, maxSize), x, maxSize, eq);
      TrimMoveLong(u, x, maxSize);
    }
  }

  lemma {:induction false} PushAllIsLastOfMoveAll<T(!new)>(u: seq<T>, xs: seq<T>, maxSize: nat, eq: (T, T) -> bool)
    requires IsEquality(eq) && NoDuplicates(u) && 0 < maxSize
    ensures PushAll(Last(u, maxSize), xs, maxSize, Some(eq)) == Last(MoveAllToNewest(u, xs), maxSize)
    decreases |xs|
  {
    if xs != [] {
      PushOneIsLastOfMove(u, xs[0], maxSize, eq);
      MoveToNewestNoDuplicates(u, xs[0]);
      PushAllIsLastOfMoveAll(MoveToNewest(u, xs[0]), xs[1..], maxSize, eq);
    }
  }

  /** Read newest first, the unbounded queue is everything pushed, newest first, deduplicated. */
  lemma {:induction false} MoveAllReversed<T>(u: seq<T>, xs: seq<T>)
    requires NoDuplicates(u)
    ensures Reverse(MoveAllToNewest(u, xs)) == DedupFirst(Reverse(xs) + Reverse(u))
    decreases |xs|
  {
    if xs == [] {
      assert Reverse(xs) + Reverse(u) == Reverse(u);
      ReverseNoDuplicates(u);
      DedupFirstOfDistinct(Reverse(u));
    } else {
      var x, a, ru := xs[0], Reverse(xs[1..]), Reverse(u);
      var u' := MoveToNewest(u, x);
      MoveToNewestNoDuplicates(u, x);
      calc {
        Reverse(MoveAllToNewest(u, xs));
        Reverse(MoveAllToNewest(u', xs[1..]));
        { MoveAllReversed(u', xs[1..]); }
        DedupFirst(a + Reverse(u'));
        { ReverseAppend(Without(u, x), [x]);
          assert Reverse([x]) == [x];
          WithoutReverse(u, x);
          assert Reverse(u') == [x] + Without(ru, x);
          assert a + ([x] + Without(ru, x)) == a + [x] + Without(ru, x); }
        DedupFirst(a + [x] + Without(ru, x));
        { DedupFirstAfterOccurrence(a, x, ru); }
        DedupFirst(a + [x] + ru);
        { assert xs == [x] + xs[1..];
          ReverseAppend([x], xs[1..]);
          assert Reverse([x]) == [x]; }
        DedupFirst(Reverse(xs) + ru);
      }
    }
  }

  /** The reference definition: at most five roots, the new one first, then the stored ones in order, no repeats. */
  function RecentRoots(stored: seq<string>, uri: string): seq<string> {
    Take(DedupFirst([uri] + stored), MaxRecentRoots)
  }

  /** The queue-based computation of `calculateRecentRoots` equals the reference definition. */
  lemma QueueComputesRecentRoots(stored: seq<string>, uri: string, eq: (string, string) -> bool)
    requires IsEquality(eq)
    ensures Reverse(PushAll([], Reverse(stored) + [uri], MaxRecentRoots, Some(eq))) == RecentRoots(stored, uri)
  {
    var pushed := Reverse(stored) + [uri];
    PushAllIsLastOfMoveAll([], pushed, MaxRecentRoots, eq);
    assert Last<string>([], MaxRecentRoots) == [];
    ReverseLast(MoveAllToNewest([], pushed), MaxRecentRoots);
    MoveAllReversed([], pushed);
    ReverseAppend(Reverse(stored), [uri]);
    ReverseReverse(stored);
    assert Reverse(pushed) + Reverse<string>([]) == [uri] + stored;
  }

  /** The recent roots start with the new root, hold at most five entries and no duplicates, and keep the other stored roots in order. */
  lemma RecentRootsProperties(stored: seq<string>, uri: string)
    ensures |RecentRoots(stored, uri)| <= MaxRecentRoots
    ensures |RecentRoots(stored, uri)| > 0 && RecentRoots(stored, uri)[0] == uri
    ensures NoDuplicates(RecentRoots(stored, uri))
    ensures RecentRoots(stored, uri)[1..] == Take(DedupFirst(Without(stored, uri)), MaxRecentRoots - 1)
  {
    var d := DedupFirst([uri] + stored);
    DedupFirstProperties([uri] + stored);
    assert ([uri] + stored)[1..] == stored;
    DedupFirstWithout(stored, uri);
    assert d == [uri] + DedupFirst(Without(stored, uri));
  }

  /** Every stored root stays in the list unless five more recent distinct roots push it out. */
  lemma RecentRootsKeepsRecent(stored: seq<string>, uri: string, root: string)
    requires root in stored
    requires |DedupFirst([uri] + stored)| <= MaxRecentRoots
    ensures root in RecentRoots(stored, uri)
  {
    DedupFirstProperties([uri] + stored);
  }

  /** `calculateRecentRoots`: reverse the stored list, push it and the new root through the queue, reverse the queue's items. */
  method CalculateRecentRoots(stored: seq<string>, uri: string) returns (r: seq<string>)
    ensures r == RecentRoots(stored, uri)
    ensures |r| <= MaxRecentRoots && |r| > 0 && r[0] == uri && NoDuplicates(r)
  {
    var eq := (left: string, right: string) => left == right;
    var queue := new Queue<string>(Some(MaxRecentRoots as int), Some(eq));
    queue.Push(Reverse(stored) + [uri]);
    r := Reverse(queue.Items());
    QueueComputesRecentRoots(stored, uri, eq);
    RecentRootsProperties(stored, uri);
  }

  // ---------------------------------------------------------------------------
  // Storage and command line

  /**
   * The `recentRoots` property of what the user storage file resolved to:
   * undefined, `null` (defined but not an array), or an array of roots.
   */
  datatype StoredRoots = Undefined | Null | Roots(roots: seq<string>)

  datatype StoredConfig = StoredConfig(recentRoots: StoredRoots)

  /** `WorkspaceData.is`: exactly the objects whose `recentRoots` is defined, `null` included. */
  predicate IsWorkspaceData(config: StoredConfig) {
    !config.recentRoots.Undefined?
  }

  /** The TypeError `recentRoots.reverse()` throws on `null`. */
  const NullReverseError := "TypeError: Cannot read property 'reverse' of null"

  /** The TypeError `data.recentRoots.length` throws on `null`. */
  const NullLengthError := "TypeError: Cannot read property 'length' of null"

  /**
   * `readFromUserStorage`: the stored object when the file exists and passes
   * `WorkspaceData.is`, otherwise `{ recentRoots: [] }`. The result always
   * passes the guard, but its `recentRoots` may still be `null`.
   */
  function ReadFromUserStorage(storage: Option<StoredConfig>): (r: StoredConfig)
    ensures IsWorkspaceData(r)
    ensures storage.Some? && IsWorkspaceData(storage.value) ==> r == storage.value
    ensures storage.None? || !IsWorkspaceData(storage.value) ==> r.recentRoots == Roots([])
  {
    if storage.Some? && IsWorkspaceData(storage.value) then storage.value else StoredConfig(Roots([]))
  }

  /** A stored `null` passes the guard and reaches the callers unchanged. */
  lemma NullPassesGuard()
    ensures ReadFromUserStorage(Some(StoredConfig(Null))).recentRoots == Null
  {
  }

  /** JavaScript truthiness of an optional string: `undefined` and `''` are false. */
  predicate Truthy(s: Option<string>) {
    s.Some? && s.value != ""
  }

  /**
   * `setArguments`: the positional workspace argument wins over `--root-dir`;
   * with neither (or only empty strings) the workspace root is undefined.
   */
  function WorkspaceRootArgument(positional: Option<string>, rootDir: Option<string>): (r: Option<string>)
    ensures Truthy(positional) ==> r == positional
    ensures !Truthy(positional) && Truthy(rootDir) ==> r == rootDir
    ensures !Truthy(positional) && !Truthy(rootDir) ==> r == None
    ensures r.Some? ==> r.value != ""
  {
    if Truthy(positional) then positional
    else if Truthy(rootDir) then rootDir
    else None
  }

  class DefaultWorkspaceServer {
    /** The current workspace root. */
    var root: Option<string>
    /** The user storage file: `None` while it does not exist. */
    var storage: Option<StoredConfig>
    /** The rejection of the constructor's asynchronous callback, which nothing observes. */
    var startupError: Option<string>

    /**
     * The root comes from the command line; without one, the most recent
     * stored root is used if there is any. A stored `null` makes the
     * callback throw on `length`: the root stays undefined.
     */
    constructor (cliRoot: Option<string>, storedConfig: Option<StoredConfig>)
      ensures storage == storedConfig
      ensures cliRoot.Some? ==> root == cliRoot && startupError == None
      ensures cliRoot.None? ==>
                var recent := ReadFromUserStorage(storedConfig).recentRoots;
                && (recent.Roots? && recent.roots != [] ==> root == Some(recent.roots[0]) && startupError == None)
                && (recent.Roots? && recent.roots == [] ==> root == None && startupError == None)
                && (recent.Null? ==> root == None && startupError == Some(NullLengthError))
    {
      storage := storedConfig;
      root := cliRoot;
      startupError := None;
      if cliRoot.None? {
        var data := ReadFromUserStorage(storedConfig);
        if data.recentRoots.Null? {
          startupError := Some(NullLengthError);
        } else if |data.recentRoots.roots| > 0 {
          root := Some(data.recentRoots.roots[0]);
        }
      }
    }

    /** `getRecentlySelectedRoots`: never undefined; the stored roots, `null`, or `[]` when nothing usable is stored. */
    function GetRecentlySelectedRoots(): (r: StoredRoots)
      reads this
      ensures !r.Undefined?
      ensures storage.Some? && !storage.value.recentRoots.Undefined? ==> r == storage.value.recentRoots
      ensures storage.None? || storage.value.recentRoots.Undefined? ==> r == Roots([])
    {
      ReadFromUserStorage(storage).recentRoots
    }

    /**
     * `setRoot`: the root changes first; then the recent roots are
     * recomputed and written back. On a stored `null`, `reverse` throws:
     * the call rejects with the root already changed and nothing written.
     */
    method SetRoot(uri: string) returns (r: Result<()>)
      modifies this
      ensures root == Some(uri) && startupError == old(startupError)
      ensures old(GetRecentlySelectedRoots()).Roots? ==>
                && r == Success(())
                && storage == Some(StoredConfig(Roots(RecentRoots(old(GetRecentlySelectedRoots()).roots, uri))))
                && GetRecentlySelectedRoots().Roots?
                && GetRecentlySelectedRoots().roots[0] == uri
                && |GetRecentlySelectedRoots().roots| <= MaxRecentRoots
      ensures old(GetRecentlySelectedRoots()).Null? ==>
                r == Failure(NullReverseError) && storage == old(storage)
    {
      root := Some(uri);
      var stored := GetRecentlySelectedRoots();
      if stored.Null? {
        return Failure(NullReverseError);
      }
      var recentRoots := CalculateRecentRoots(stored.roots, uri);
      storage := Some(StoredConfig(Roots(recentRoots)));
      r := Success(());
    }
  }
}
