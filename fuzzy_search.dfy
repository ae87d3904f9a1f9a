/**
 * The navigator's fuzzy searcher (packages/navigator/src/browser/fuzzy-search.ts).
 *
 * The `fuzzy` library does the matching and scoring; its output is an input
 * here. Each library result carries the item's position in the input array
 * and the item's text with every matched character wrapped in the PRE and
 * POST markers. `mapRanges` parses those markers back into highlight ranges.
 */
module FuzzySearch {
  import opened Wrappers

  /** `FuzzySearchImpl.PRE`, the character `\x01`. */
  const Pre: char := 1 as char
  /** `FuzzySearchImpl.POST`, the character `\x02`. */
  const Post: char := 2 as char

  /** A highlighted region. The length is an `int`: misplaced markers give a negative one. */
  datatype Range = Range(offset: int, length: int)

  /** A match handed back to the navigator: the original item and its highlight ranges. */
  datatype Match<T> = Match(item: T, ranges: seq<Range>)

  /** One result of the `fuzzy` library: the marked-up text, its score, the item's input position and the item. */
  datatype FilterResult<T> = FilterResult(text: string, score: int, index: int, original: T)

  // ---------------------------------------------------------------------------
  // Array helpers with JavaScript's semantics

  /** `indexOf`: the first position holding `c`, or -1. */
  function IndexOf(s: seq<char>, c: char): (r: int)
    ensures -1 <= r < |s|
    ensures r >= 0 ==> s[r] == c
  {
    if s == [] then -1
    else if s[0] == c then 0
    else
      var k := IndexOf(s[1..], c);
      if k == -1 then -1 else k + 1
  }

  /** `indexOf` returns the first occurrence, and -1 only when there is none. */
  lemma {:induction false} IndexOfFirstOccurrence(s: seq<char>, c: char)
    ensures IndexOf(s, c) >= 0 ==> forall j | 0 <= j < IndexOf(s, c) :: s[j] != c
    ensures IndexOf(s, c) == -1 ==> forall j | 0 <= j < |s| :: s[j] != c
    decreases |s|
  {
    if s != [] && s[0] != c {
      IndexOfFirstOccurrence(s[1..], c);
      assert forall j | 1 <= j < |s| :: s[j] == s[1..][j - 1];
    }
  }

  /** `splice(i, 1)`: removes the element at `i`; a position past the end leaves the array as it is. */
  function Splice(s: seq<char>, i: nat): seq<char>
    decreases |s|
  {
    if i >= |s| then s
    else if i == 0 then s[1..]
    else [s[0]] + Splice(s[1..], i - 1)
  }

  /** Within range, `splice(i, 1)` keeps everything before and after position `i`. */
  lemma {:induction false} SpliceSlices(s: seq<char>, i: nat)
    ensures i < |s| ==> Splice(s, i) == s[..i] + s[i + 1..]
    ensures i >= |s| ==> Splice(s, i) == s
    decreases |s|
  {
    if 0 < i < |s| {
      SpliceSlices(s[1..], i - 1);
      assert s[..i] == [s[0]] + s[1..][..i - 1];
      assert s[i + 1..] == s[1..][i..];
    }
  }

  lemma SpliceShortens(s: seq<char>, i: nat)
    ensures |Splice(s, i)| <= |s|
    ensures i < |s| ==> |Splice(s, i)| < |s|
  {
    SpliceSlices(s, i);
  }

  function Count(s: seq<char>, c: char): nat {
    if s == [] then 0 else (if s[0] == c then 1 else 0) + Count(s[1..], c)
  }

  /** `[...input].join('|')`. */
  function JoinChars(s: string): string {
    if |s| <= 1 then s else [s[0]] + "|" + JoinChars(s[1..])
  }

  function MapError(input: string): string {
    "Error when trying to map ranges. Escaped string was: '" + input + ". [" + JoinChars(input) + "]'"
  }

  function ZeroRangesError(input: string): string {
    "Unexpected zero ranges for match-string: " + input + "."
  }

  // ---------------------------------------------------------------------------
  // mapRanges

  /**
   * The loop of `mapRanges` on the remaining copy: while both markers are
   * present, emit a range from the first PRE to the first POST, then splice
   * out the POST position and then the PRE position.
   */
  function LoopRanges(copy: seq<char>): seq<Range>
    decreases |copy|
  {
    var pre := IndexOf(copy, Pre);
    var post := IndexOf(copy, Post);
    if pre == -1 || post == -1 then []
    else
      SpliceShortens(copy, post);
      SpliceShortens(Splice(copy, post), pre);
      [Range(pre, post - pre - 1)] + LoopRanges(Splice(Splice(copy, post), pre))
  }

  /**
   * `mapRanges`: validation of the first markers only, then the loop; no
   * range at all is an error too.
   */
  function RangesOf(input: string): (r: Result<seq<Range>>)
    ensures r.Success? ==> |r.value| > 0
  {
    var pre := IndexOf(input, Pre);
    var post := IndexOf(input, Post);
    if pre > post || (pre == -1) != (post == -1) then Failure(MapError(input))
    else
      var ranges := LoopRanges(input);
      if ranges == [] then Failure(ZeroRangesError(input)) else Success(ranges)
  }

  /** `mapRanges` as written: a loop that splices the copy in place and pushes ranges. */
  method MapRanges(input: string) returns (r: Result<seq<Range>>)
    ensures r == RangesOf(input)
  {
    var copy := input;
    var ranges: seq<Range> := [];
    var preIndex := IndexOf(copy, Pre);
    var postIndex := IndexOf(copy, Post);
    if preIndex > postIndex || (preIndex == -1) != (postIndex == -1) {
      return Failure(MapError(input));
    }
    while preIndex != -1 && postIndex != -1
      invariant preIndex == IndexOf(copy, Pre) && postIndex == IndexOf(copy, Post)
      invariant LoopRanges(input) == ranges + LoopRanges(copy)
      decreases |copy|
    {
      var range := Range(preIndex, postIndex - preIndex - 1);
      ghost var next := Splice(Splice(copy, postIndex), preIndex);
      LoopRangesStep(copy, preIndex, postIndex);
      ghost var rest := LoopRanges(next);
      assert ranges + ([range] + rest) == (ranges + [range]) + rest;
      ranges := ranges + [range];
      copy := Splice(copy, postIndex);
      copy := Splice(copy, preIndex);
      assert copy == next && LoopRanges(input) == ranges + rest;
      preIndex := IndexOf(copy, Pre);
      postIndex := IndexOf(copy, Post);
    }
    assert LoopRanges(copy) == [];
    assert ranges + [] == ranges;
    assert ranges == LoopRanges(input);
    if |ranges| == 0 {
      return Failure(ZeroRangesError(input));
    }
    return Success(ranges);
  }

  /** One round of the loop: the range it emits and the shorter copy it continues with. */
  lemma LoopRangesStep(copy: seq<char>, pre: int, post: int)
    requires pre == IndexOf(copy, Pre) && post == IndexOf(copy, Post) && pre != -1 && post != -1
    ensures LoopRanges(copy) == [Range(pre, post - pre - 1)] + LoopRanges(Splice(Splice(copy, post), pre))
    ensures |Splice(Splice(copy, post), pre)| < |copy|
  {
    SpliceShortens(copy, post);
    SpliceShortens(Splice(copy, post), pre);
  }

  /** `mapRanges` succeeds exactly when both markers occur and the first PRE precedes the first POST. */
  lemma RangesOfSucceedsIff(input: string)
    ensures RangesOf(input).Success? <==>
              IndexOf(input, Pre) != -1 && IndexOf(input, Post) != -1 && IndexOf(input, Pre) < IndexOf(input, Post)
  {
  }

  lemma {:induction false} CountAppend(a: seq<char>, b: seq<char>, c: char)
    ensures Count(a + b, c) == Count(a, c) + Count(b, c)
    decreases |a|
  {
    if a != [] {
      assert (a + b)[1..] == a[1..] + b;
      CountAppend(a[1..], b, c);
    } else {
      assert a + b == b;
    }
  }

  /** Splicing removes one occurrence of `c` when it removes a `c`, and no other. */
  lemma SpliceCount(s: seq<char>, i: nat, c: char)
    ensures i < |s| && s[i] == c ==> Count(Splice(s, i), c) + 1 == Count(s, c)
    ensures Count(Splice(s, i), c) <= Count(s, c)
  {
    if i < |s| {
      assert s == s[..i] + ([s[i]] + s[i + 1..]);
      CountAppend(s[..i], [s[i]] + s[i + 1..], c);
      CountAppend([s[i]], s[i + 1..], c);
      CountAppend(s[..i], s[i + 1..], c);
    }
  }

  /**
   * Every round of the loop removes the first POST, so there are at most as
   * many ranges as POST markers.
   */
  lemma {:induction false} LoopRangesBound(copy: seq<char>)
    ensures |LoopRanges(copy)| <= Count(copy, Post)
    decreases |copy|
  {
    var pre := IndexOf(copy, Pre);
    var post := IndexOf(copy, Post);
    if pre != -1 && post != -1 {
      var next := Splice(Splice(copy, post), pre);
      SpliceCount(copy, post, Post);
      SpliceCount(Splice(copy, post), pre, Post);
      SpliceShortens(copy, post);
      SpliceShortens(Splice(copy, post), pre);
      LoopRangesBound(next);
    }
  }

  /**
   * Validation runs once: a POST that precedes the remaining PRE after the
   * first round yields a negative length.
   */
  lemma MisplacedMarkersNegativeLength()
    ensures RangesOf([Pre, 'a', Post, Post, 'b', Pre]) == Success([Range(0, 1), Range(3, -3)])
  {
    var s0: seq<char> := [Pre, 'a', Post, Post, 'b', Pre];
    var s1: seq<char> := ['a', Post, 'b', Pre];
    var s2: seq<char> := ['a', 'b', Pre];
    IndexOfAbsent(s2, Post);
    assert LoopRanges(s2) == [];
    IndexOfFirst(s1, Pre, 3);
    IndexOfFirst(s1, Post, 1);
    assert Splice(Splice(s1, 1), 3) == s2;
    assert LoopRanges(s1) == [Range(3, -3)];
    IndexOfFirst(s0, Pre, 0);
    IndexOfFirst(s0, Post, 2);
    SpliceSlices(s0, 2);
    assert Splice(Splice(s0, 2), 0) == s1;
    assert LoopRanges(s0) == [Range(0, 1), Range(3, -3)];
  }

  /**
   * Splicing the POST position first shifts the PRE, so the second splice
   * removes the wrong character or nothing; six characters then give four
   * ranges, more than half the length.
   */
  lemma MisplacedMarkersTooManyRanges()
    ensures RangesOf([Pre, Post, Post, Post, Post, Pre]) == Success([Range(0, 0), Range(3, -4), Range(2, -3), Range(1, -2)])
  {
    var s0: seq<char> := [Pre, Post, Post, Post, Post, Pre];
    var s1: seq<char> := [Post, Post, Post, Pre];
    var s2: seq<char> := [Post, Post, Pre];
    var s3: seq<char> := [Post, Pre];
    var s4: seq<char> := [Pre];
    assert IndexOf(s4, Post) == -1;
    assert LoopRanges(s4) == [];
    assert IndexOf(s3, Pre) == 1 && IndexOf(s3, Post) == 0;
    assert Splice(Splice(s3, 0), 1) == s4;
    assert LoopRanges(s3) == [Range(1, -2)];
    assert IndexOf(s2, Pre) == 2 && IndexOf(s2, Post) == 0;
    assert Splice(Splice(s2, 0), 2) == s3;
    assert LoopRanges(s2) == [Range(2, -3), Range(1, -2)];
    assert IndexOf(s1, Pre) == 3 && IndexOf(s1, Post) == 0;
    assert Splice(Splice(s1, 0), 3) == s2;
    assert LoopRanges(s1) == [Range(3, -4), Range(2, -3), Range(1, -2)];
    assert IndexOf(s0, Pre) == 0 && IndexOf(s0, Post) == 1;
    assert Splice(Splice(s0, 1), 0) == s1;
    assert LoopRanges(s0) == [Range(0, 0), Range(3, -4), Range(2, -3), Range(1, -2)];
  }

  // ---------------------------------------------------------------------------
  // The strings the `fuzzy` library produces

  /** Text that holds neither marker. */
  predicate Plain(s: string) {
    Pre !in s && Post !in s
  }

  /** How the `fuzzy` library marks up a match: every matched character is wrapped in PRE and POST. */
  function Render(text: string, matched: seq<bool>): string
    requires |matched| == |text|
    decreases |text|
  {
    if text == [] then []
    else (if matched[0] then [Pre, text[0], Post] else [text[0]]) + Render(text[1..], matched[1..])
  }

  /** The reference result: a range of length one at every matched position, in order. */
  function MatchedRanges(matched: seq<bool>, offset: int): seq<Range>
    decreases |matched|
  {
    if matched == [] then []
    else (if matched[0] then [Range(offset, 1)] else []) + MatchedRanges(matched[1..], offset + 1)
  }

  /** `indexOf` finds `k` when `s[k]` is the first `c`. */
  lemma IndexOfFirst(s: seq<char>, c: char, k: nat)
    requires k < |s| && s[k] == c && forall j | 0 <= j < k :: s[j] != c
    ensures IndexOf(s, c) == k
  {
    IndexOfFirstOccurrence(s, c);
  }

  /** One round of the loop on a marked character after plain text: a range of length one, then the markers are gone. */
  lemma LoopStepOnMarkedCharacter(plain: string, x: char, rest: string)
    requires Plain(plain) && x != Pre && x != Post
    ensures var s := plain + [Pre, x, Post] + rest;
            && IndexOf(s, Pre) == |plain| && IndexOf(s, Post) == |plain| + 2
            && LoopRanges(s) == [Range(|plain|, 1)] + LoopRanges((plain + [x]) + rest)
  {
    var s := plain + [Pre, x, Post] + rest;
    var p := |plain|;
    assert s[..p] == plain;
    assert forall j | 0 <= j < p :: s[j] != Pre && s[j] != Post by {
      forall j | 0 <= j < p ensures s[j] != Pre && s[j] != Post {
        assert s[j] == s[..p][j];
      }
    }
    assert s[p] == Pre && s[p + 1] == x && s[p + 2] == Post;
    IndexOfFirst(s, Pre, p);
    IndexOfFirst(s, Post, p + 2);
    var t := plain + [Pre, x] + rest;
    SpliceSlices(s, p + 2);
    assert s[..p + 2] == plain + [Pre, x] && s[p + 3..] == rest;
    assert Splice(s, p + 2) == t;
    SpliceSlices(t, p);
    var head, tail := plain + [Pre], [x] + rest;
    assert t == head + tail;
    assert t[..p] == plain && t[p + 1..] == tail by {
      assert t[..p] == head[..p];
      assert t[|head|..] == tail;
    }
    assert Splice(t, p) == (plain + [x]) + rest;
  }

  lemma IndexOfAbsent(s: seq<char>, c: char)
    requires c !in s
    ensures IndexOf(s, c) == -1
  {
  }

  lemma {:induction false} RenderUnmatched(text: string, matched: seq<bool>)
    requires |matched| == |text| && true !in matched
    ensures Render(text, matched) == text
    decreases |text|
  {
    if text != [] {
      assert true !in matched[1..] by {
        assert forall j | 0 <= j < |matched| - 1 :: matched[1..][j] == matched[j + 1];
      }
      RenderUnmatched(text[1..], matched[1..]);
    }
  }

  /**
   * The loop over plain text followed by a rendered match finds one range of
   * length one per matched character, offset by the plain prefix; and the
   * first PRE precedes the first POST whenever anything was matched.
   */
  lemma {:induction false} LoopOfRender(plain: string, text: string, matched: seq<bool>)
    requires |matched| == |text| && Plain(plain) && Plain(text)
    ensures LoopRanges(plain + Render(text, matched)) == MatchedRanges(matched, |plain|)
    ensures true in matched ==>
              var s := plain + Render(text, matched);
              0 <= IndexOf(s, Pre) < IndexOf(s, Post)
    decreases |text|
  {
    var s := plain + Render(text, matched);
    if text == [] {
      assert s == plain;
    } else {
      var rest := Render(text[1..], matched[1..]);
      assert Plain(text[1..]) by {
        assert forall j | 0 <= j < |text| - 1 :: text[1..][j] == text[j + 1];
      }
      var x := text[0];
      assert x in text;
      if matched[0] {
        assert s == plain + [Pre, x, Post] + rest;
        LoopStepOnMarkedCharacter(plain, x, rest);
        LoopOfRender(plain + [x], text[1..], matched[1..]);
      } else {
        assert s == (plain + [x]) + rest;
        assert true in matched ==> true in matched[1..] by {
          if true in matched {
            var k :| 0 <= k < |matched| && matched[k];
            assert matched[1..][k - 1];
          }
        }
        LoopOfRender(plain + [x], text[1..], matched[1..]);
      }
    }
  }

  /**
   * Round trip: `mapRanges` recovers exactly the matched positions from the
   * library's rendering, provided the text holds no marker and something matched.
   */
  lemma RenderRoundTrip(text: string, matched: seq<bool>)
    requires |matched| == |text| && Plain(text) && true in matched
    ensures RangesOf(Render(text, matched)) == Success(MatchedRanges(matched, 0))
  {
    LoopOfRender([], text, matched);
    assert [] + Render(text, matched) == Render(text, matched);
  }

  /** A rendered string with nothing matched is the text itself, without markers, so `mapRanges` reports zero ranges. */
  lemma RenderNoMatchFails(text: string, matched: seq<bool>)
    requires |matched| == |text| && Plain(text) && true !in matched
    ensures Render(text, matched) == text
    ensures RangesOf(Render(text, matched)) == Failure(ZeroRangesError(text))
  {
    RenderUnmatched(text, matched);
    IndexOfAbsent(text, Pre);
    IndexOfAbsent(text, Post);
  }

  /**
   * On rendered text every range has length one, offsets strictly increase
   * and each points at a matched character; each range costs two markers,
   * so there are at most half as many ranges as characters.
   */
  lemma {:induction false} MatchedRangesProperties(text: string, matched: seq<bool>, offset: int)
    requires |matched| == |text|
    ensures var r := MatchedRanges(matched, offset);
            && (forall i | 0 <= i < |r| :: r[i].length == 1 && offset <= r[i].offset < offset + |matched| && matched[r[i].offset - offset])
            && (forall i, j | 0 <= i < j < |r| :: r[i].offset < r[j].offset)
            && 2 * |r| <= |Render(text, matched)|
    decreases |matched|
  {
    if matched != [] {
      MatchedRangesProperties(text[1..], matched[1..], offset + 1);
    }
  }

  // ---------------------------------------------------------------------------
  // filter, sortResults, mapResult

  /** `sortResults`: the comparator orders results by their position in the input array. */
  function CompareResults<T>(left: FilterResult<T>, right: FilterResult<T>): (r: int)
    ensures r < 0 <==> left.index < right.index
    ensures r == 0 <==> left.index == right.index
    ensures r > 0 <==> left.index > right.index
  {
    left.index - right.index
  }

  /** The comparator is antisymmetric, as `Array.prototype.sort` requires. */
  lemma CompareResultsAntisymmetric<T>(left: FilterResult<T>, right: FilterResult<T>)
    ensures CompareResults(left, right) == -CompareResults(right, left)
  {
  }

  predicate SortedByIndex<T>(s: seq<FilterResult<T>>) {
    forall i, j | 0 <= i < j < |s| :: s[i].index <= s[j].index
  }

  /** Stable insertion: `x` goes before the first result that does not come before it. */
  function Insert<T>(x: FilterResult<T>, s: seq<FilterResult<T>>): seq<FilterResult<T>> {
    if s == [] || CompareResults(x, s[0]) <= 0 then [x] + s else [s[0]] + Insert(x, s[1..])
  }

  /** The sort of the library's results with `sortResults` as comparator. */
  function SortByIndex<T>(s: seq<FilterResult<T>>): seq<FilterResult<T>> {
    if s == [] then [] else Insert(s[0], SortByIndex(s[1..]))
  }

  predicate AtMost<T>(b: int, s: seq<FilterResult<T>>) {
    forall i | 0 <= i < |s| :: b <= s[i].index
  }

  lemma {:induction false} InsertLowerBound<T>(b: int, x: FilterResult<T>, s: seq<FilterResult<T>>)
    requires b <= x.index && AtMost(b, s)
    ensures AtMost(b, Insert(x, s))
    decreases |s|
  {
    if s != [] && CompareResults(x, s[0]) > 0 {
      InsertLowerBound(b, x, s[1..]);
    }
  }

  lemma {:induction false} InsertPermutation<T>(x: FilterResult<T>, s: seq<FilterResult<T>>)
    ensures multiset(Insert(x, s)) == multiset(s) + multiset{x}
    ensures |Insert(x, s)| == |s| + 1
    decreases |s|
  {
    if s != [] && CompareResults(x, s[0]) > 0 {
      InsertPermutation(x, s[1..]);
      assert s == [s[0]] + s[1..];
    }
  }

  lemma {:induction false} InsertSorted<T>(x: FilterResult<T>, s: seq<FilterResult<T>>)
    requires SortedByIndex(s)
    ensures SortedByIndex(Insert(x, s))
    decreases |s|
  {
    if s != [] && CompareResults(x, s[0]) > 0 {
      var t := Insert(x, s[1..]);
      InsertSorted(x, s[1..]);
      InsertLowerBound(s[0].index, x, s[1..]);
      assert forall i, j | 0 <= i < j < |[s[0]] + t| :: ([s[0]] + t)[i].index <= ([s[0]] + t)[j].index by {
        forall i, j | 0 <= i < j < |[s[0]] + t| ensures ([s[0]] + t)[i].index <= ([s[0]] + t)[j].index {
          if i > 0 {
            assert ([s[0]] + t)[i] == t[i - 1] && ([s[0]] + t)[j] == t[j - 1];
          }
        }
      }
    }
  }

  /** Sorting orders the results by index and keeps every result exactly as often as it occurred. */
  lemma {:induction false} SortByIndexSorts<T>(s: seq<FilterResult<T>>)
    ensures SortedByIndex(SortByIndex(s))
    ensures multiset(SortByIndex(s)) == multiset(s)
    ensures |SortByIndex(s)| == |s|
    decreases |s|
  {
    if s != [] {
      SortByIndexSorts(s[1..]);
      InsertSorted(s[0], SortByIndex(s[1..]));
      InsertPermutation(s[0], SortByIndex(s[1..]));
      assert s == [s[0]] + s[1..];
    }
  }

  /** `mapResult`: the original item, unchanged, and the ranges parsed from the marked-up text. */
  function MapResult<T>(result: FilterResult<T>): (r: Result<Match<T>>)
    ensures r.Success? <==> RangesOf(result.text).Success?
    ensures r.Success? ==> r.value.item == result.original && r.value.ranges == RangesOf(result.text).value
    ensures r.Failure? ==> r.error == RangesOf(result.text).error
  {
    var ranges := RangesOf(result.text);
    if ranges.Failure? then Failure(ranges.error) else Success(Match(result.original, ranges.value))
  }

  /** `map(mapResult)`: the first result whose ranges cannot be parsed makes the whole map throw. */
  function MapResults<T>(results: seq<FilterResult<T>>): Result<seq<Match<T>>> {
    if results == [] then Success([])
    else
      var first := MapResult(results[0]);
      if first.Failure? then Failure(first.error)
      else
        var rest := MapResults(results[1..]);
        if rest.Failure? then rest else Success([first.value] + rest.value)
  }

  /** `filter`: the library's results sorted by index, then reshaped into matches. */
  function Filter<T>(results: seq<FilterResult<T>>): Result<seq<Match<T>>> {
    MapResults(SortByIndex(results))
  }

  /** The map succeeds exactly when every text parses, and then keeps order, items and ranges. */
  lemma {:induction false} MapResultsProperties<T>(results: seq<FilterResult<T>>)
    ensures MapResults(results).Success? <==> forall i | 0 <= i < |results| :: RangesOf(results[i].text).Success?
    ensures MapResults(results).Success? ==>
              && |MapResults(results).value| == |results|
              && forall i | 0 <= i < |results| ::
                   MapResults(results).value[i] == Match(results[i].original, RangesOf(results[i].text).value)
    decreases |results|
  {
    if results != [] {
      MapResultsProperties(results[1..]);
      assert forall i | 1 <= i < |results| :: results[1..][i - 1] == results[i];
    }
  }

  /**
   * `filter` lists the matches in ascending input position, each carrying
   * its original item; it fails exactly when some result's text cannot be parsed.
   */
  lemma FilterProperties<T>(results: seq<FilterResult<T>>)
    ensures Filter(results).Success? <==> forall i | 0 <= i < |results| :: RangesOf(results[i].text).Success?
    ensures Filter(results).Success? ==>
              var sorted := SortByIndex(results);
              && |sorted| == |results| && |Filter(results).value| == |results|
              && SortedByIndex(sorted) && multiset(sorted) == multiset(results)
              && (forall i | 0 <= i < |sorted| :: RangesOf(sorted[i].text).Success?)
              && forall i | 0 <= i < |sorted| :: Filter(results).value[i] == Match(sorted[i].original, RangesOf(sorted[i].text).value)
  {
    var sorted := SortByIndex(results);
    SortByIndexSorts(results);
    MapResultsProperties(sorted);
    forall i | 0 <= i < |results| ensures results[i] in multiset(sorted) {
      assert results[i] in multiset(results);
    }
    forall i | 0 <= i < |sorted| ensures sorted[i] in multiset(results) {
      assert sorted[i] in multiset(sorted);
    }
  }
}
