/**
 * Saving resources and resolving them (packages/core/src/common/resource.ts).
 *
 * A content change is represented by the length of its JSON serialisation,
 * a resource by which optional save methods it has and how they turn out,
 * and a resolver by the result it gives for a URI (the URI as a string).
 */
module Resources {
  import opened Wrappers

  // ---------------------------------------------------------------------------
  // shouldSaveContent

  /** The summed serialised lengths of the changes. */
  function Sum(lengths: seq<nat>): nat
    decreases |lengths|
  {
    if lengths == [] then 0 else Sum(lengths[..|lengths| - 1]) + lengths[|lengths| - 1]
  }

  /** Saving the whole content is preferred when the changes are longer than the content. */
  predicate ShouldSave(contentLength: nat, changeLengths: seq<nat>) {
    Sum(changeLengths) > contentLength
  }

  /** Partial sums never decrease: a prefix never sums to more than the whole. */
  lemma {:induction false} SumPrefix(lengths: seq<nat>, i: nat)
    requires i <= |lengths|
    ensures Sum(lengths[..i]) <= Sum(lengths)
    decreases |lengths| - i
  {
    if i < |lengths| {
      SumPrefix(lengths, i + 1);
      assert lengths[..i + 1][..i] == lengths[..i];
    } else {
      assert lengths[..i] == lengths;
    }
  }

  /**
   * `shouldSaveContent`: accumulate the change lengths and stop as soon as
   * the running total exceeds the content length; the early answer is the
   * final comparison's answer.
   */
  method ShouldSaveContent(contentLength: nat, changeLengths: seq<nat>) returns (r: bool)
    ensures r <==> Sum(changeLengths) > contentLength
  {
    var contentChangesLength := 0;
    for i := 0 to |changeLengths|
      invariant contentChangesLength == Sum(changeLengths[..i])
      invariant contentChangesLength <= contentLength
    {
      assert changeLengths[..i + 1][..i] == changeLengths[..i];
      contentChangesLength := contentChangesLength + changeLengths[i];
      if contentChangesLength > contentLength {
        SumPrefix(changeLengths, i + 1);
        return true;
      }
    }
    assert changeLengths[..|changeLengths|] == changeLengths;
    return contentChangesLength > contentLength;
  }

  // ---------------------------------------------------------------------------
  // save and trySaveContentChanges

  /** The optional save methods a resource has, and whether each call fails. */
  datatype ResourceCaps = ResourceCaps(
    hasSaveContents: bool, saveContentsFails: bool,
    hasSaveContentChanges: bool, saveContentChangesFails: bool)

  /** What a save context holds, as far as the decisions look at it. */
  datatype SaveContext = SaveContext(contentLength: nat, changeLengths: seq<nat>)

  datatype Call = SaveContentChangesCall | SaveContentsCall

  /** The effects of a save: the calls made, in order, whether an error was logged, and whether the save failed. */
  datatype SaveRun = SaveRun(calls: seq<Call>, logged: bool, failed: bool)

  /** `trySaveContentChanges`: whether the incremental save was done, and its effects. */
  function TrySaveContentChanges(resource: ResourceCaps, context: SaveContext): (bool, SaveRun) {
    if !resource.hasSaveContentChanges || ShouldSave(context.contentLength, context.changeLengths) then
      (false, SaveRun([], false, false))
    else if resource.saveContentChangesFails then
      (false, SaveRun([SaveContentChangesCall], true, false))
    else
      (true, SaveRun([SaveContentChangesCall], false, false))
  }

  /** `save`: nothing without changes or `saveContents`; the incremental save first; the full save unless it was done or cancelled. */
  function Save(resource: ResourceCaps, context: SaveContext, cancellationRequested: bool): SaveRun {
    if |context.changeLengths| == 0 || !resource.hasSaveContents then SaveRun([], false, false)
    else
      var (done, tried) := TrySaveContentChanges(resource, context);
      if done || cancellationRequested then tried
      else SaveRun(tried.calls + [SaveContentsCall], tried.logged, resource.saveContentsFails)
  }

  /** The incremental save is attempted exactly when it exists and the changes are not longer than the content; it is done when that call does not fail. */
  lemma TrySaveContentChangesCases(resource: ResourceCaps, context: SaveContext)
    ensures var (done, run) := TrySaveContentChanges(resource, context);
            && (run.calls == [SaveContentChangesCall] <==>
                  resource.hasSaveContentChanges && !ShouldSave(context.contentLength, context.changeLengths))
            && (run.calls != [SaveContentChangesCall] ==> run.calls == [])
            && (done <==> run.calls == [SaveContentChangesCall] && !resource.saveContentChangesFails)
            && (run.logged <==> run.calls == [SaveContentChangesCall] && resource.saveContentChangesFails)
            && !run.failed
  {
  }

  /**
   * The full content is saved exactly when there are changes, `saveContents`
   * exists, the incremental save was not done and cancellation was not
   * requested; then it is the last call, made once.
   */
  lemma SaveContentsCases(resource: ResourceCaps, context: SaveContext, cancellationRequested: bool)
    ensures var run := Save(resource, context, cancellationRequested);
            var (done, _) := TrySaveContentChanges(resource, context);
            && (SaveContentsCall in run.calls <==>
                  |context.changeLengths| > 0 && resource.hasSaveContents && !done && !cancellationRequested)
            && (SaveContentsCall in run.calls ==> run.calls[|run.calls| - 1] == SaveContentsCall && SaveContentsCall !in run.calls[..|run.calls| - 1])
            && (run.failed <==> SaveContentsCall in run.calls && resource.saveContentsFails)
  {
    var run := Save(resource, context, cancellationRequested);
    var (done, tried) := TrySaveContentChanges(resource, context);
    assert SaveContentsCall !in tried.calls;
    if SaveContentsCall in run.calls {
      assert run.calls[..|run.calls| - 1] == tried.calls;
    }
  }

  /** Without changes, or without `saveContents`, a save does nothing at all, even when `saveContentChanges` exists. */
  lemma SaveWithoutChangesOrSaveContents(resource: ResourceCaps, context: SaveContext, cancellationRequested: bool)
    requires |context.changeLengths| == 0 || !resource.hasSaveContents
    ensures Save(resource, context, cancellationRequested) == SaveRun([], false, false)
  {
  }

  /** A successful incremental save is never followed by a full save. */
  lemma IncrementalSaveIsFinal(resource: ResourceCaps, context: SaveContext, cancellationRequested: bool)
    requires TrySaveContentChanges(resource, context).0
    requires |context.changeLengths| > 0 && resource.hasSaveContents
    ensures Save(resource, context, cancellationRequested).calls == [SaveContentChangesCall]
    ensures !Save(resource, context, cancellationRequested).failed
  {
  }

  // ---------------------------------------------------------------------------
  // DefaultResourceProvider

  function NotRegistered(uri: string): string {
    "A resource provider for '" + uri + "' is not registered."
  }

  /** The reference definition: the first resolver's resource, in order, that does not fail. */
  function FirstResolved<R>(resolvers: seq<string -> Result<R>>, uri: string): Result<R>
    decreases |resolvers|
  {
    if resolvers == [] then Failure(NotRegistered(uri))
    else if resolvers[0](uri).Success? then resolvers[0](uri)
    else FirstResolved(resolvers[1..], uri)
  }

  /** The first resolver that succeeds decides; with none, the result is the "not registered" rejection. */
  lemma {:induction false} FirstResolvedProperties<R>(resolvers: seq<string -> Result<R>>, uri: string)
    ensures FirstResolved(resolvers, uri).Success? <==> exists i | 0 <= i < |resolvers| :: resolvers[i](uri).Success?
    ensures FirstResolved(resolvers, uri).Success? ==>
              exists i | 0 <= i < |resolvers| ::
                && FirstResolved(resolvers, uri) == resolvers[i](uri)
                && forall j | 0 <= j < i :: resolvers[j](uri).Failure?
    ensures FirstResolved(resolvers, uri).Failure? ==> FirstResolved(resolvers, uri) == Failure(NotRegistered(uri))
    decreases |resolvers|
  {
    if resolvers != [] && resolvers[0](uri).Failure? {
      FirstResolvedProperties(resolvers[1..], uri);
      if FirstResolved(resolvers, uri).Success? {
        var i :| 0 <= i < |resolvers[1..]| && FirstResolved(resolvers[1..], uri) == resolvers[1..][i](uri)
                 && forall j | 0 <= j < i :: resolvers[1..][j](uri).Failure?;
        assert forall j | 0 <= j < i + 1 :: resolvers[j](uri).Failure? by {
          forall j | 0 <= j < i + 1 ensures resolvers[j](uri).Failure? {
            if j > 0 {
              assert resolvers[j] == resolvers[1..][j - 1];
            }
          }
        }
        assert FirstResolved(resolvers, uri) == resolvers[i + 1](uri);
      }
      if exists i | 0 <= i < |resolvers| :: resolvers[i](uri).Success? {
        var i :| 0 <= i < |resolvers| && resolvers[i](uri).Success?;
        assert resolvers[1..][i - 1] == resolvers[i];
      }
    }
  }

  class DefaultResourceProvider<R> {
    /** The contributed resolvers, in contribution order. */
    const resolvers: seq<string -> Result<R>>

    constructor (resolvers: seq<string -> Result<R>>)
      ensures this.resolvers == resolvers
    {
      this.resolvers := resolvers;
    }

    /** `get`: try the resolvers in order and return the first resource; a failing resolver is skipped. */
    method Get(uri: string) returns (r: Result<R>)
      ensures r == FirstResolved(resolvers, uri)
    {
      for i := 0 to |resolvers|
        invariant FirstResolved(resolvers[i..], uri) == FirstResolved(resolvers, uri)
      {
        assert resolvers[i..][1..] == resolvers[i + 1..];
        var outcome := resolvers[i](uri);
        if outcome.Success? {
          return outcome;
        }
      }
      return Failure(NotRegistered(uri));
    }
  }
}
