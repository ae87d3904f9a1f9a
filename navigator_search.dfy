/**
 * The file navigator's search term throttle and search engine
 * (packages/navigator/src/browser/navigator-search.ts).
 *
 * Browser timers are modelled by the set of scheduled timer ids and a
 * method for the moment a timer elapses; the emitters by logs of the
 * events they fired. The tree walk that collects the visible nodes and the
 * fuzzy search service are inputs: `Filter` receives what the search
 * resolved to.
 */
module NavigatorSearch {
  import opened Wrappers
  import opened FuzzySearch

  /** `ThrottleOptions.DEFAULT.delay`, in milliseconds. */
  const DefaultDelay: nat := 50

  /** The character `\b` (code 8). */
  const BackspaceChar: char := 8 as char

  /** What the search box appends for Backspace. */
  const BackspaceInput: string := [BackspaceChar]

  /** `substr(0, length)`: a negative or zero length gives the empty string. */
  function Prefix(s: string, length: int): (r: string)
    ensures length <= 0 ==> r == ""
    ensures 0 <= length <= |s| ==> r == s[..length]
    ensures length > |s| ==> r == s
  {
    if length <= 0 then "" else if length <= |s| then s[..length] else s
  }

  /** Backspace on a defined state: a one-character state becomes `''`, otherwise the last character goes (`''` stays `''`). */
  function DeleteLast(s: string): (r: string)
    ensures |s| == 0 ==> r == ""
    ensures |s| > 0 ==> r == s[..|s| - 1]
  {
    if |s| == 1 then "" else Prefix(s, |s| - 1)
  }

  /** The new state after `append` of a defined input. */
  function NextState(state: Option<string>, input: string): (r: string)
    ensures state.None? ==> r == input
    ensures state.Some? && input == BackspaceInput ==>
              (if state.value == "" then r == "" else r + [state.value[|state.value| - 1]] == state.value)
    ensures state.Some? && input != BackspaceInput ==> |r| == |state.value| + |input| && r[..|state.value|] == state.value && r[|state.value|..] == input
  {
    if state.None? then input
    else if input == BackspaceInput then DeleteLast(state.value)
    else state.value + input
  }

  /** Typing a character and then Backspace gives back the state as it was. */
  lemma BackspaceUndoesTyping(state: string, input: string)
    requires |input| == 1 && input != BackspaceInput
    ensures NextState(Some(NextState(Some(state), input)), BackspaceInput) == state
  {
    assert (state + input)[..|state|] == state;
  }

  /** An undefined state takes the input verbatim, even a Backspace. */
  lemma FirstInputIsVerbatim(input: string)
    ensures NextState(None, input) == input
  {
  }

  /** A defined state either grows by the input or shrinks by at most one character. */
  lemma NextStateLength(state: string, input: string)
    ensures input != BackspaceInput ==> NextState(Some(state), input) == state + input
    ensures input == BackspaceInput ==>
              |NextState(Some(state), input)| == (if |state| == 0 then 0 else |state| - 1)
              && NextState(Some(state), input) == state[..|NextState(Some(state), input)|]
  {
  }

  /** The state after a run of inputs, starting from `state`. */
  function TypeAll(state: Option<string>, inputs: seq<string>): Option<string>
    decreases |inputs|
  {
    if inputs == [] then state else TypeAll(Some(NextState(state, inputs[0])), inputs[1..])
  }

  /** The inputs for typing `word` one character at a time. */
  function Keystrokes(word: string): seq<string>
    decreases |word|
  {
    if word == [] then [] else [[word[0]]] + Keystrokes(word[1..])
  }

  /** Typing a word without Backspace characters onto a defined term appends the word. */
  lemma {:induction false} TypingAppendsWord(prefix: string, word: string)
    requires BackspaceChar !in word
    ensures TypeAll(Some(prefix), Keystrokes(word)) == Some(prefix + word)
    decreases |word|
  {
    if word == [] {
      assert prefix + word == prefix;
    } else {
      assert [word[0]] != BackspaceInput by {
        assert word[0] in word;
      }
      assert BackspaceChar !in word[1..] by {
        forall j | 0 <= j < |word| - 1 ensures word[1..][j] != BackspaceChar {
          assert word[1..][j] == word[j + 1];
        }
      }
      TypingAppendsWord(prefix + [word[0]], word[1..]);
      assert (prefix + [word[0]]) + word[1..] == prefix + word;
    }
  }

  class Throttle {
    /** The search term; `None` when there is none. */
    var state: Option<string>
    /** The id of the pending timer, if any. */
    var timer: Option<nat>
    /** Timers scheduled with the browser and not yet cleared or elapsed. */
    var scheduled: set<nat>
    /** The browser hands out timer ids 1, 2, 3, ...; all of them are truthy. */
    var nextTimerId: nat
    /** Every value fired to `onChanged` listeners, in order. */
    var fired: seq<Option<string>>
    const delay: nat

    /** At most one timer is pending, and it is the one `timer` holds. */
    ghost predicate Valid()
      reads this
    {
      && nextTimerId > 0
      && (timer.None? ==> scheduled == {})
      && (timer.Some? ==> scheduled == {timer.value} && 0 < timer.value < nextTimerId)
    }

    constructor (delay: nat)
      ensures Valid()
      ensures state == None && timer == None && fired == [] && this.delay == delay
    {
      state := None;
      timer := None;
      scheduled := {};
      nextTimerId := 1;
      fired := [];
      this.delay := delay;
    }

    /** `clearTimer`: cancel the pending timer, if any. */
    method ClearTimer()
      requires Valid()
      modifies this
      ensures Valid()
      ensures timer == None && scheduled == {}
      ensures state == old(state) && fired == old(fired) && nextTimerId == old(nextTimerId)
    {
      if timer.Some? {
        scheduled := scheduled - {timer.value};
        timer := None;
      }
    }

    /** `fireChanged`: cancel the pending timer, then notify the listeners. */
    method FireChanged(value: Option<string>)
      requires Valid()
      modifies this
      ensures Valid()
      ensures timer == None && scheduled == {}
      ensures fired == old(fired) + [value]
      ensures state == old(state) && nextTimerId == old(nextTimerId)
    {
      ClearTimer();
      fired := fired + [value];
    }

    /** `reset`: forget the search term and tell the listeners at once. */
    method Reset()
      requires Valid()
      modifies this
      ensures Valid()
      ensures state == None && timer == None
      ensures fired == old(fired) + [None]
      ensures nextTimerId == old(nextTimerId)
    {
      state := None;
      FireChanged(None);
    }

    /**
     * `append`: `undefined` resets; anything else edits the term, replaces
     * the pending timer by a new one and returns the new term.
     */
    method Append(input: Option<string>) returns (r: Option<string>)
      requires Valid()
      modifies this
      ensures Valid()
      ensures input.None? ==> r == None && state == None && timer == None && fired == old(fired) + [None]
      ensures input.Some? ==>
                && state == Some(NextState(old(state), input.value)) && r == state
                && timer == Some(old(nextTimerId)) && scheduled == {old(nextTimerId)}
                && fired == old(fired)
    {
      if input.None? {
        Reset();
        return None;
      }
      ClearTimer();
      if state.None? {
        state := input;
      } else {
        if input.value == BackspaceInput {
          state := Some(if |state.value| == 1 then "" else Prefix(state.value, |state.value| - 1));
        } else {
          state := Some(state.value + input.value);
        }
      }
      timer := Some(nextTimerId);
      scheduled := {nextTimerId};
      nextTimerId := nextTimerId + 1;
      return state;
    }

    /**
     * The pending timer elapses: its callback fires the term as it is at
     * that moment. The browser drops the elapsed timer, which is what
     * `clearTimer` leaves too.
     */
    method TimerElapses()
      requires Valid() && timer.Some?
      modifies this
      ensures Valid()
      ensures timer == None && scheduled == {}
      ensures fired == old(fired) + [old(state)]
      ensures state == old(state)
    {
      FireChanged(state);
    }
  }

  /** A node of the navigator tree, as far as the search engine looks at it. */
  datatype TreeNode = TreeNode(id: string, name: string)

  /** The items of the matches, in match order. */
  function MatchedNodes(matches: seq<Match<TreeNode>>): (r: seq<TreeNode>)
    ensures |r| == |matches|
    ensures forall i | 0 <= i < |r| :: r[i] == matches[i].item
  {
    seq(|matches|, i requires 0 <= i < |matches| => matches[i].item)
  }

  /** The decoration map: node id to highlight ranges; a later match for the same id wins, as in `new Map(entries)`. */
  function Decorations(matches: seq<Match<TreeNode>>): (r: map<string, seq<Range>>)
    ensures r.Keys == set i | 0 <= i < |matches| :: matches[i].item.id
    ensures |matches| > 0 ==> r[matches[|matches| - 1].item.id] == matches[|matches| - 1].ranges
    decreases |matches|
  {
    if matches == [] then map[]
    else
      var init := matches[..|matches| - 1];
      var last := matches[|matches| - 1];
      assert forall i | 0 <= i < |init| :: init[i] == matches[i];
      Decorations(init)[last.item.id := last.ranges]
  }

  /** Each id maps to the ranges of its last match: a match no later match shares an id with is what the map keeps. */
  lemma {:induction false} DecorationsLastMatchWins(matches: seq<Match<TreeNode>>, i: int)
    requires 0 <= i < |matches|
    requires forall j | i < j < |matches| :: matches[j].item.id != matches[i].item.id
    ensures Decorations(matches)[matches[i].item.id] == matches[i].ranges
    decreases |matches|
  {
    if i < |matches| - 1 {
      var init := matches[..|matches| - 1];
      assert init[i] == matches[i];
      forall j | i < j < |init| ensures init[j].item.id != init[i].item.id {
        assert init[j] == matches[j];
      }
      DecorationsLastMatchWins(init, i);
    }
  }

  class EngineImpl {
    /** `_filteredNodes`. */
    var filteredNodes: seq<TreeNode>
    /** Every decoration map fired to decoration listeners, in order. */
    var decorationEvents: seq<map<string, seq<Range>>>
    /** Every node list fired to `onFilteredNodesChanged` listeners, in order. */
    var filteredNodesEvents: seq<seq<TreeNode>>

    /** The nodes the getter returns are always the ones last announced to `onFilteredNodesChanged` listeners. */
    ghost predicate Valid()
      reads this
    {
      if filteredNodesEvents == [] then filteredNodes == []
      else filteredNodes == filteredNodesEvents[|filteredNodesEvents| - 1]
    }

    constructor ()
      ensures Valid()
      ensures filteredNodes == [] && decorationEvents == [] && filteredNodesEvents == []
    {
      filteredNodes := [];
      decorationEvents := [];
      filteredNodesEvents := [];
    }

    /** The `filteredNodes` getter: a copy (a Dafny sequence is a value). */
    function FilteredNodes(): (r: seq<TreeNode>)
      requires Valid()
      reads this
      ensures filteredNodesEvents == [] ==> r == []
      ensures filteredNodesEvents != [] ==> r == filteredNodesEvents[|filteredNodesEvents| - 1]
    {
      filteredNodes
    }

    /**
     * `filter`: without a pattern (undefined or `''`) or without a tree root
     * the filter is cleared; otherwise the nodes become those the fuzzy
     * search matched, in match order. `search` is what the fuzzy search
     * resolved to; when it rejects, `filter` rejects and nothing changes.
     */
    method Filter(pattern: Option<string>, root: Option<TreeNode>, search: Result<seq<Match<TreeNode>>>)
      returns (r: Result<seq<TreeNode>>)
      requires Valid()
      modifies this
      ensures Valid()
      ensures pattern.None? || pattern.value == "" || root.None? ==>
                && r == Success([]) && filteredNodes == []
                && decorationEvents == old(decorationEvents) + [map[]]
                && filteredNodesEvents == old(filteredNodesEvents) + [[]]
      ensures pattern.Some? && pattern.value != "" && root.Some? && search.Failure? ==>
                && r == Failure(search.error) && filteredNodes == old(filteredNodes)
                && decorationEvents == old(decorationEvents) && filteredNodesEvents == old(filteredNodesEvents)
      ensures pattern.Some? && pattern.value != "" && root.Some? && search.Success? ==>
                && filteredNodes == MatchedNodes(search.value) && r == Success(filteredNodes)
                && decorationEvents == old(decorationEvents) + [Decorations(search.value)]
                && filteredNodesEvents == old(filteredNodesEvents) + [filteredNodes]
    {
      if pattern.None? || pattern.value == "" || root.None? {
        decorationEvents := decorationEvents + [map[]];
        filteredNodes := [];
        filteredNodesEvents := filteredNodesEvents + [filteredNodes];
        return Success([]);
      }
      if search.Failure? {
        return Failure(search.error);
      }
      decorationEvents := decorationEvents + [Decorations(search.value)];
      filteredNodes := MatchedNodes(search.value);
      filteredNodesEvents := filteredNodesEvents + [filteredNodes];
      return Success(filteredNodes);
    }
  }
}
