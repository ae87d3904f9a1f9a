# Theia core logic in Dafny

This project models the small state machines and decision routines at the heart of an early version of the Theia IDE platform, and proves properties of them. Each module follows one TypeScript source file:

- `LazyPromises` (`lazy_promise.dfy`): the isolated-extension API's `LazyPromise`. It is a result cell that a producer can settle before or after a consumer attaches.
- `CommandRegistryMain` (`command_registry.dfy`): the main-side command bridge. It keeps a map from command id to the disposable handle of its registration.
- `Queues` (`queue.dfy`): the bounded queue that can drop equivalent items and always keeps the newest ones.
- `WorkspaceServer` (`workspace_server.dfy`): the recent-workspace-roots list built on the queue, the storage fallback and the command-line root argument.
- `FuzzySearch` (`fuzzy_search.dfy`): the parser that turns the fuzzy library's marked-up string into highlight ranges, and the sorting and reshaping of the library's results.
- `NavigatorSearch` (`navigator_search.dfy`): the search term throttle and the engine that keeps the filtered navigator nodes.
- `SearchBox` (`search_box.dfy`): the navigator search box's key classification and its show/hide logic.
- `Resources` (`resource.dfy`): the choice between an incremental and a full save, and the resource provider that tries its resolvers in order.
- `Theming` (`theming.dfy`): the theme registry with its default-theme fallback, the active theme, and the colour-theme picker's revert-on-close.
- `MenuPlugin` (`menu_plugin.dfy`): the flattening of the menu model into the Electron menu template.
- `TerminalWidgets` (`terminal_widget.dfy`): the validation of the CSS values the terminal reads from the page, and the widget's open, restore, start and dispose flags.
- `Wrappers` (`wrappers.dfy`): `Option` and `Result`.

Where the source mutates an object, the model is a `class` with the same fields. Its methods are proved against a pure function of the old state, and the properties are lemmas about those functions. Exceptions and promise rejections become `Failure` results, or a `threw` flag where the source would throw after a side effect. Emitters, loggers and the diagnostic sink become logs of what they were given. Values the program receives from code not modelled here are parameters: the fuzzy library's matches, the backend's terminal ids, the results of command callbacks and resolvers.

The JavaScript semantics the source relies on are written out:

- `''` and `undefined` are falsy.
- `substr(0, n)` with `n <= 0` gives `''`.
- `splice` at an index past the end does nothing.
- `Number.MAX_SAFE_INTEGER` is 9007199254740991.
- `trim` removes the ECMAScript white space and line terminator characters.
- A missing CSS property reads as `''`.

Two behaviours of the code worth knowing:

- **LazyPromise values are overwritten.** `resolveOk` overwrites `value` on every accepted call (`lazy-promise.ts:62-63`). A consumer that attaches late therefore sees the last value, while one that attached early sees the first, because a native promise settles only once. `AttachOrderIndependence` and `LateAttachReplaysLastValue` state this.
- **Theme registration is last-wins.** A later theme with the same id replaces the earlier one (`theming.ts:59-63`).

## Model

| member | source | states |
|---|---|---|
| LazyPromises.AfterEnsureActual | packages/isolated-extension-api/src/api/lazy-promise.ts:39-55 | after `ensureActual` the underlying promise always exists |
| LazyPromises.RunPreservesValid | packages/isolated-extension-api/src/api/lazy-promise.ts:57-85 | after any sequence of calls a cell never has both a value and an error, and the underlying promise agrees with the flags |
| LazyPromises.ErrorIsSticky | packages/isolated-extension-api/src/api/lazy-promise.ts:57-60 | once an error is recorded, later calls never record a value and the underlying promise stays rejected |
| LazyPromises.ValueIsSticky | packages/isolated-extension-api/src/api/lazy-promise.ts:70-73 | once a value is recorded, later calls never record an error and the underlying promise stays fulfilled |
| LazyPromises.CanceledIsInert | packages/isolated-extension-api/src/api/lazy-promise.ts:57-101 | a canceled cell is left exactly as it is by any sequence of operations |
| LazyPromises.SettledPromiseIsImmutable | packages/isolated-extension-api/src/api/lazy-promise.ts:65-79 | forwarding to a settled underlying promise never changes its outcome |
| LazyPromises.AttachSimulation | packages/isolated-extension-api/src/api/lazy-promise.ts:46-79 | an attached cell and an unattached one given the same resolutions keep the same flags |
| LazyPromises.AttachOrderIndependence | packages/isolated-extension-api/src/api/lazy-promise.ts:39-55 | attaching before or after settling observes the same kind of outcome, and the same value or error when there is a single resolution |
| LazyPromises.LateAttachReplaysLastValue | packages/isolated-extension-api/src/api/lazy-promise.ts:46-63 | before anyone attaches, the last accepted value is the one a late consumer receives |
| LazyPromises.UnconsumedErrorIsReported | packages/isolated-extension-api/src/api/lazy-promise.ts:78-84 | an error with no consumer goes to the diagnostic sink, and a late `catch` still sees the rejection |
| LazyPromises.LazyPromise.constructor | packages/isolated-extension-api/src/api/lazy-promise.ts:28-37 | a fresh cell has no value, no error, is not canceled and has no underlying promise |
| LazyPromises.LazyPromise.EnsureActual | packages/isolated-extension-api/src/api/lazy-promise.ts:39-55 | creates the promise at most once, replaying a recorded value or error; an existing promise is kept |
| LazyPromises.LazyPromise.ResolveOk | packages/isolated-extension-api/src/api/lazy-promise.ts:57-68 | ignored when canceled or errored; otherwise sets `hasValue`, overwrites the value and forwards it to an attached promise |
| LazyPromises.LazyPromise.ResolveErr | packages/isolated-extension-api/src/api/lazy-promise.ts:70-85 | ignored when canceled or resolved; otherwise records the error and rejects an attached promise, or reports the error when none is attached |
| LazyPromises.LazyPromise.Then | packages/isolated-extension-api/src/api/lazy-promise.ts:87-93 | a canceled cell returns undefined without creating the promise; otherwise it chains to the created promise |
| LazyPromises.LazyPromise.Catch | packages/isolated-extension-api/src/api/lazy-promise.ts:95-101 | a canceled cell returns itself without creating the promise; otherwise it chains to the created promise |
| CommandRegistryMain.IsEnabled | packages/isolated-extension-api/src/browser/command-registry-main.ts:35 | registered handlers are always enabled |
| CommandRegistryMain.IsVisible | packages/isolated-extension-api/src/browser/command-registry-main.ts:36 | registered handlers are always visible |
| CommandRegistryMain.CommandRegistryMainImpl.constructor | packages/isolated-extension-api/src/browser/command-registry-main.ts:21-26 | an empty `disposables` map, with nothing registered, disposed or forwarded yet |
| CommandRegistryMain.CommandRegistryMainImpl.RegisterCommand | packages/isolated-extension-api/src/browser/command-registry-main.ts:28-38 | registers with the delegate and stores the new handle under the command id, replacing any earlier entry; handles stay distinct and undisposed |
| CommandRegistryMain.CommandRegistryMainImpl.ExecuteHandler | packages/isolated-extension-api/src/browser/command-registry-main.ts:32-34 | the handler forwards only the command id to the extension side, whatever the arguments |
| CommandRegistryMain.CommandRegistryMainImpl.UnregisterCommand | packages/isolated-extension-api/src/browser/command-registry-main.ts:39-45 | a present id has its handle disposed and is deleted; an absent id changes nothing; other entries are unchanged |
| CommandRegistryMain.CommandRegistryMainImpl.ExecuteCommand | packages/isolated-extension-api/src/browser/command-registry-main.ts:46-48 | always fails with "Method not implemented." |
| CommandRegistryMain.CommandRegistryMainImpl.GetCommands | packages/isolated-extension-api/src/browser/command-registry-main.ts:49-51 | always fails with "Method not implemented." |
| Queues.NormalizeMaxSize | packages/core/src/common/queue.ts:21 | a missing or non-positive `maxSize` means `MAX_SAFE_INTEGER`; a positive one is kept |
| Queues.FindIndex | packages/core/src/common/queue.ts:35 | the index of the first equivalent item, or -1 when there is none |
| Queues.PushAllBounded | packages/core/src/common/queue.ts:41-43 | after any push the queue holds at most `maxSize` items, and the last pushed item is the newest |
| Queues.PushAllAppend | packages/core/src/common/queue.ts:32-44 | `push(...xs, ...ys)` is `push(...xs)` followed by `push(...ys)` |
| Queues.PushAllWithoutEquivalent | packages/core/src/common/queue.ts:34-43 | without `equivalent`, duplicates are kept and the queue is the newest `maxSize` items of everything pushed |
| Queues.PushAllNoDuplicates | packages/core/src/common/queue.ts:34-40 | with an equality as `equivalent`, pushing keeps the queue free of duplicates |
| Queues.RemoveAtNoDuplicates | packages/core/src/common/queue.ts:36-38 | removing one item from a duplicate-free queue keeps it duplicate-free, drops that item and keeps every other one |
| Queues.TestScenarios | packages/core/src/common/queue.spec.ts:17-33 | `[1,2,3,4]` with size 3 leaves 3 items; `[1,1]` gives `[1]`; `[1,2,3,1]` gives `[2,3,1]` |
| Queues.Queue.constructor | packages/core/src/common/queue.ts:19-23 | an empty queue with the normalised size and the given `equivalent` |
| Queues.Queue.Push | packages/core/src/common/queue.ts:32-45 | the for loop leaves the items of `PushAll` over the old items; the last pushed item is the newest |
| Queues.Queue.Items | packages/core/src/common/queue.ts:47-54 | the getter returns the items, oldest first, never more than `maxSize` of them |
| Queues.Queue.PushItem | packages/core/src/common/queue.ts:34-43 | one pass of the loop body: the in-place splice, push and shift leave the items of `PushOne`, within `maxSize` |
| WorkspaceServer.QueueComputesRecentRoots | packages/workspace/src/node/default-workspace-server.ts:132-140 | reversing, pushing through the duplicate-free five-item queue and reversing back gives the first five distinct roots of `[uri] + stored` |
| WorkspaceServer.RecentRootsProperties | packages/workspace/src/node/default-workspace-server.ts:132-140 | the list starts with the new root, has at most 5 entries and no duplicates, and continues with the other stored roots in their order |
| WorkspaceServer.RecentRootsKeepsRecent | packages/workspace/src/node/default-workspace-server.ts:134-139 | when the new root and the stored roots make at most five distinct roots, every stored root is kept |
| WorkspaceServer.CalculateRecentRoots | packages/workspace/src/node/default-workspace-server.ts:132-140 | the queue-based computation equals the reference list |
| WorkspaceServer.ReadFromUserStorage | packages/workspace/src/node/default-workspace-server.ts:118-127 | the result always passes `WorkspaceData.is`; a stored object that passes it (any defined `recentRoots`, `null` included) is returned as it is; a missing file or undefined `recentRoots` gives `{ recentRoots: [] }` |
| WorkspaceServer.NullPassesGuard | packages/workspace/src/node/default-workspace-server.ts:150-152 | a stored `null` passes `WorkspaceData.is` and reaches the callers unchanged |
| WorkspaceServer.WorkspaceRootArgument | packages/workspace/src/node/default-workspace-server.ts:32-40 | the positional argument wins over `--root-dir`; with neither (or only empty strings) the root is undefined |
| WorkspaceServer.DefaultWorkspaceServer.constructor | packages/workspace/src/node/default-workspace-server.ts:54-67 | without a command-line root, the most recent stored root is used if there is one; a stored `null` makes the callback reject on `length` and the root stays undefined |
| WorkspaceServer.DefaultWorkspaceServer.GetRecentlySelectedRoots | packages/workspace/src/node/default-workspace-server.ts:79-81 | never undefined: the stored `recentRoots` when defined (possibly `null`), otherwise `[]` |
| WorkspaceServer.DefaultWorkspaceServer.SetRoot | packages/workspace/src/node/default-workspace-server.ts:73-77 | the root becomes the uri; with stored roots, storage then holds the recomputed recent roots, which start with it; with a stored `null`, the call rejects on `reverse` after the root has changed and nothing is written |
| FuzzySearch.IndexOfFirstOccurrence | packages/navigator/src/browser/fuzzy-search.ts:118-119 | `indexOf` finds the first occurrence, or -1 when there is none |
| FuzzySearch.RangesOf | packages/navigator/src/browser/fuzzy-search.ts:131-133 | a successful `mapRanges` never returns an empty list |
| FuzzySearch.MapRanges | packages/navigator/src/browser/fuzzy-search.ts:110-135 | the while loop, with its splices and pushes, computes the reference result |
| FuzzySearch.LoopRangesStep | packages/navigator/src/browser/fuzzy-search.ts:121-129 | each iteration adds the range at the first PRE, with the count of characters between it and the first POST, then removes both markers |
| FuzzySearch.RangesOfSucceedsIff | packages/navigator/src/browser/fuzzy-search.ts:113-133 | `mapRanges` succeeds exactly when both markers occur and the first PRE precedes the first POST; the zero-ranges error is then never reached |
| FuzzySearch.LoopRangesBound | packages/navigator/src/browser/fuzzy-search.ts:126-129 | each iteration deletes one POST, so there are at most as many ranges as POST markers |
| FuzzySearch.MisplacedMarkersNegativeLength | packages/navigator/src/browser/fuzzy-search.ts:118-125 | validation runs once, so later misordered markers give a range of negative length |
| FuzzySearch.MisplacedMarkersTooManyRanges | packages/navigator/src/browser/fuzzy-search.ts:118-129 | for arbitrary marked strings there can be more ranges than half the string's length |
| FuzzySearch.RenderRoundTrip | packages/navigator/src/browser/fuzzy-search.ts:110-135 | for a string the fuzzy library marks up, `mapRanges` gives back exactly the matched positions as one-character ranges |
| FuzzySearch.RenderNoMatchFails | packages/navigator/src/browser/fuzzy-search.ts:131-133 | a rendering with nothing matched is the plain text, and `mapRanges` rejects it with the zero-ranges error |
| FuzzySearch.MatchedRangesProperties | packages/navigator/src/browser/fuzzy-search.ts:121-129 | ranges from a marked-up string have length 1, increasing offsets, and number at most half the string's length |
| FuzzySearch.CompareResults | packages/navigator/src/browser/fuzzy-search.ts:99-101 | the comparator's sign orders results by ascending original index |
| FuzzySearch.CompareResultsAntisymmetric | packages/navigator/src/browser/fuzzy-search.ts:99-101 | the comparator is antisymmetric |
| FuzzySearch.SortByIndexSorts | packages/navigator/src/browser/fuzzy-search.ts:96-101 | the sort yields a permutation of the results ordered by index |
| FuzzySearch.MapResult | packages/navigator/src/browser/fuzzy-search.ts:103-108 | a match carries the original item unchanged, with the ranges of its string; a bad string's error propagates |
| FuzzySearch.FilterProperties | packages/navigator/src/browser/fuzzy-search.ts:91-97 | `filter` succeeds exactly when every result's string parses; its matches follow the results sorted by index, a permutation of the input, each with its original item and its ranges |
| NavigatorSearch.Prefix | packages/navigator/src/browser/navigator-search.ts:94 | `substr(0, n)`: empty for n <= 0, the first n characters, or everything |
| NavigatorSearch.DeleteLast | packages/navigator/src/browser/navigator-search.ts:93-94 | Backspace drops the last character; `''` stays `''` |
| NavigatorSearch.BackspaceUndoesTyping | packages/navigator/src/browser/navigator-search.ts:93-97 | typing one character then Backspace gives back the term |
| NavigatorSearch.FirstInputIsVerbatim | packages/navigator/src/browser/navigator-search.ts:90-91 | an undefined state takes the input verbatim, even `'\b'` |
| NavigatorSearch.NextState | packages/navigator/src/browser/navigator-search.ts:90-98 | an undefined term becomes the input verbatim; on a defined term Backspace gives the term without its last character (`''` stays `''`), and any other input is appended after the whole term |
| NavigatorSearch.NextStateLength | packages/navigator/src/browser/navigator-search.ts:92-98 | on a defined term, other input is appended, and Backspace shortens by one (not below empty) to a prefix |
| NavigatorSearch.TypingAppendsWord | packages/navigator/src/browser/navigator-search.ts:95-97 | typing a word key by key appends the word to the term |
| NavigatorSearch.Throttle.constructor | packages/navigator/src/browser/navigator-search.ts:80 | a new throttle has no term, no pending timer and has notified nobody; it keeps the configured delay |
| NavigatorSearch.Throttle.ClearTimer | packages/navigator/src/browser/navigator-search.ts:116-121 | cancels the pending timer, if any, and changes nothing else |
| NavigatorSearch.Throttle.FireChanged | packages/navigator/src/browser/navigator-search.ts:111-114 | cancels the timer, then notifies listeners with the value |
| NavigatorSearch.Throttle.Reset | packages/navigator/src/browser/navigator-search.ts:123-126 | clears the term and notifies listeners with undefined at once |
| NavigatorSearch.Throttle.Append | packages/navigator/src/browser/navigator-search.ts:84-101 | `undefined` resets and returns undefined; other input edits the term, replaces the pending timer with a new one (at most one pending) and returns the new term |
| NavigatorSearch.Throttle.TimerElapses | packages/navigator/src/browser/navigator-search.ts:99-114 | when the timer elapses the listeners get the term as it is at that moment |
| NavigatorSearch.MatchedNodes | packages/navigator/src/browser/navigator-search.ts:175 | the filtered nodes are the match items in match order |
| NavigatorSearch.Decorations | packages/navigator/src/browser/navigator-search.ts:174 | the decoration map has one key per matched node id, and the final match's id maps to its ranges |
| NavigatorSearch.DecorationsLastMatchWins | packages/navigator/src/browser/navigator-search.ts:174 | every id maps to the ranges of its last match, as `new Map(entries)` keeps the later entry |
| NavigatorSearch.EngineImpl.constructor | packages/navigator/src/browser/navigator-search.ts:148 | the engine starts with no filtered nodes and has fired no events |
| NavigatorSearch.EngineImpl.FilteredNodes | packages/navigator/src/browser/navigator-search.ts:184-186 | the getter returns the node list last fired to `onFilteredNodesChanged` listeners, or `[]` before any filter |
| NavigatorSearch.EngineImpl.Filter | packages/navigator/src/browser/navigator-search.ts:159-178 | no pattern or no root clears the nodes and returns []; otherwise the nodes become the matched items and a copy is returned; a failed search changes nothing |
| SearchBox.Character | packages/navigator/src/browser/search-box.ts:159 | Backspace sends `'\b'`, any other key its easy string |
| SearchBox.PrintableCodes | packages/navigator/src/browser/search-box.ts:241-252 | printable keys are exactly the codes 48-57, 65-90, 96-111, 186-192 and 219-222 |
| SearchBox.SpecialKeysNeedVisibility | packages/navigator/src/browser/search-box.ts:170-182 | Escape and Backspace are handled only while the box is visible and no modifier is held |
| SearchBox.CanHandleCases | packages/navigator/src/browser/search-box.ts:170-182 | nothing is handled without a key code or with ctrl, alt or meta; printable keys are handled whether visible or not |
| SearchBox.Widget.constructor | packages/navigator/src/browser/search-box.ts:72-88 | the box starts hidden with an empty input; hiding before attachment fires no close event |
| SearchBox.Widget.OnBeforeHide | packages/navigator/src/browser/search-box.ts:151-154 | resets the throttle with undefined, then fires close |
| SearchBox.Widget.Hide | packages/navigator/src/browser/search-box.ts:151-154 | a visible box runs `onBeforeHide` (resetting the term and firing close) and becomes hidden; a hidden box is left as it is |
| SearchBox.Widget.Show | packages/navigator/src/browser/search-box.ts:139 | the box becomes visible and nothing else changes |
| SearchBox.Widget.HandleKey | packages/navigator/src/browser/search-box.ts:156-168 | a non-empty term from the throttle becomes the input text; an empty or undefined one hides the box |
| SearchBox.Widget.Handle | packages/navigator/src/browser/search-box.ts:131-141 | unhandled keys change nothing; a handled Escape hides the box; any other handled key shows it and is passed to `handleKey` |
| Resources.ShouldSaveContent | packages/core/src/common/resource.ts:63-73 | true exactly when the summed change lengths exceed the content length; the early exit agrees because partial sums never decrease |
| Resources.SumPrefix | packages/core/src/common/resource.ts:66-71 | a prefix of the changes never sums to more than all of them |
| Resources.TrySaveContentChangesCases | packages/core/src/common/resource.ts:51-62 | the incremental save is tried only when it exists and the content should not be saved whole; it is done unless the call fails, and a failure is logged |
| Resources.SaveContentsCases | packages/core/src/common/resource.ts:39-50 | the full save happens exactly when there are changes, `saveContents` exists, the incremental save was not done and cancellation was not requested; it is the last call |
| Resources.SaveWithoutChangesOrSaveContents | packages/core/src/common/resource.ts:40-42 | without changes or without `saveContents` a save does nothing |
| Resources.IncrementalSaveIsFinal | packages/core/src/common/resource.ts:43-45 | after a successful incremental save no full save follows |
| Resources.FirstResolvedProperties | packages/core/src/common/resource.ts:98-108 | the first resolver that does not fail decides; if all fail, the "not registered" rejection results |
| Resources.DefaultResourceProvider.constructor | packages/core/src/common/resource.ts:91-94 | the provider keeps the contributed resolvers, in contribution order |
| Resources.DefaultResourceProvider.Get | packages/core/src/common/resource.ts:98-108 | the loop over the resolvers returns the reference result |
| Theming.InitialService | packages/core/src/browser/theming.ts:40-56 | a new service has no themes and nothing active, keeps the `theme` entry an earlier session left in `localStorage`, and satisfies the registry invariant (every theme under its own id, each id listed once) |
| Theming.GetThemes | packages/core/src/browser/theming.ts:65-73 | one theme per registered id |
| Theming.CurrentTheme | packages/core/src/browser/theming.ts:103-106 | a registered theme or none; the stored id's theme when the stored id is non-empty and registered, otherwise the default theme; none exactly when neither is registered |
| Theming.GetTheme | packages/core/src/browser/theming.ts:75-77 | the theme registered under the id, else the default theme, else none |
| Theming.RegisterPreservesValid | packages/core/src/browser/theming.ts:59-63 | registration keeps every theme under its own id, with each id listed once |
| Theming.LastWithIdProperties | packages/core/src/browser/theming.ts:60-62 | the last theme with an id is found when one exists, and nothing is found otherwise |
| Theming.RegisterLastWins | packages/core/src/browser/theming.ts:59-63 | after `register(...ts)` an id in `ts` holds its last theme there; other ids keep their theme |
| Theming.GetThemesEachOnce | packages/core/src/browser/theming.ts:65-73 | `getThemes` lists every registered theme, only registered themes, and none twice |
| Theming.SetCurrentThemeEffects | packages/core/src/browser/theming.ts:89-101 | the old theme is deactivated before the new one is activated; the requested id is stored even when the default was used; one event carries new and old theme |
| Theming.SetCurrentThemePreservesValid | packages/core/src/browser/theming.ts:89-106 | switching the theme leaves the registry unchanged, so `getThemes` may still be called |
| Theming.SetCurrentThemeUnknown | packages/core/src/browser/theming.ts:89-95 | with neither the id nor the default registered, only the deactivation happens before the call throws |
| Theming.PersistedThemeIsPickedUp | packages/core/src/browser/theming.ts:103-106 | a non-empty theme id stored by an earlier session is picked up by `getCurrentTheme` once a theme with that id is registered: the last one registered |
| Theming.CurrentThemeIsActive | packages/core/src/browser/theming.ts:89-106 | after a successful switch to a non-empty id, `getCurrentTheme` returns the active theme |
| Theming.PickerRevertsOnlyPreviews | packages/core/src/browser/theming.ts:127-158 | previewing then closing brings back the theme current at `execute`; opening then closing keeps the chosen theme |
| Theming.ThemeService.constructor | packages/core/src/browser/theming.ts:51-56 | the service starts in the initial state, with `localStorage`'s `theme` entry as an earlier session left it |
| Theming.ThemeService.Register | packages/core/src/browser/theming.ts:59-63 | the loop stores each theme under its id, as `AfterRegister` does |
| Theming.ThemeService.GetThemesList | packages/core/src/browser/theming.ts:65-73 | the loop over the ids collects the themes in order |
| Theming.ThemeService.GetCurrentTheme | packages/core/src/browser/theming.ts:103-106 | on the service's fields, `CurrentTheme` of its state: a registered theme or none |
| Theming.ThemeService.SetCurrentTheme | packages/core/src/browser/theming.ts:89-101 | performs the effects of `AfterSetCurrentTheme` in order, and reports the throw |
| Theming.ThemingCommandContribution.constructor | packages/core/src/browser/theming.ts:114-117 | the picker uses the given service and has nothing to revert to |
| Theming.ThemingCommandContribution.Execute | packages/core/src/browser/theming.ts:127-128 | remembers the current theme's id to revert to |
| Theming.ThemingCommandContribution.Run | packages/core/src/browser/theming.ts:152-157 | opening clears `resetTo`; both modes switch the theme |
| Theming.ThemingCommandContribution.OnClose | packages/core/src/browser/theming.ts:133-137 | reverts to `resetTo` when it is set and not empty |
| MenuPlugin.EnabledCases | src/application/electron-browser/menu/menu-plugin.ts:49-56 | `enabled` defaults to true and takes `isEnabled`, but `isVisible` overwrites it whenever defined |
| MenuPlugin.ContributionSucceedsIff | src/application/electron-browser/menu/menu-plugin.ts:44-48 | a node's items can be built exactly when every action below it names a known command; otherwise the error is "Unknown command id" |
| MenuPlugin.FlattenSucceedsIff | src/application/electron-browser/menu/menu-plugin.ts:28-69 | the whole template is built exactly when every action in the tree names a known command |
| MenuPlugin.FlattenAppend | src/application/electron-browser/menu/menu-plugin.ts:28-69 | items are appended in node order: the items of two node lists are those of the first, then the second |
| MenuPlugin.UnlabelledInlines | src/application/electron-browser/menu/menu-plugin.ts:36-42 | an unlabelled composite contributes a separator followed by its children's items, inlined at the same level |
| MenuPlugin.LabelledIsOneItem | src/application/electron-browser/menu/menu-plugin.ts:31-35 | a labelled composite contributes exactly one item, whose submenu is built from a fresh list |
| MenuPlugin.MainMenuFactory.constructor | src/application/electron-browser/menu/menu-plugin.ts:13-16 | the factory keeps the command registry's commands and the platform it runs on |
| MenuPlugin.MainMenuFactory.FillMenuTemplate | src/application/electron-browser/menu/menu-plugin.ts:28-69 | the recursive accumulating loop returns the given items followed by the reference items, or the error |
| MenuPlugin.MainMenuFactory.CreateMenuBar | src/application/electron-browser/menu/menu-plugin.ts:7-26 | the template is the main menu's items, with the application menu prepended only on darwin |
| TerminalWidgets.TrimProperties | packages/terminal/src/browser/terminal-widget.ts:150 | `trim` keeps a contiguous part and removes only white space around it |
| TerminalWidgets.TrimIdempotent | packages/terminal/src/browser/terminal-widget.ts:150-168 | trimming the already trimmed font size again changes nothing |
| TerminalWidgets.Lookup | packages/terminal/src/browser/terminal-widget.ts:148-156 | the trimmed value, or an error naming the property when it is empty |
| TerminalWidgets.DigitsValueOfShowNat | packages/terminal/src/browser/terminal-widget.ts:173 | `parseInt` of a number's decimal notation gives the number |
| TerminalWidgets.FontSizeRoundTrip | packages/terminal/src/browser/terminal-widget.ts:166-173 | a value `<n>px`, with or without white space around it, reads back as n |
| TerminalWidgets.ColorShapes | packages/terminal/src/browser/terminal-widget.ts:175-184 | accepted colours are exactly `#` followed by three or six hexadecimal digits |
| TerminalWidgets.ColorIsTrimmed | packages/terminal/src/browser/terminal-widget.ts:176-184 | an accepted colour has no white space to trim |
| TerminalWidgets.CSSPropertiesSucceedsIff | packages/terminal/src/browser/terminal-widget.ts:145-192 | the page's values are accepted exactly when the family is not blank, the size is `<digits>px` and both colours are hex colours; the accepted values are the trimmed ones, and the font size is the value of the digits before `px` |
| TerminalWidgets.MissingFontFamilyFirst | packages/terminal/src/browser/terminal-widget.ts:148-161 | a missing font family is the error reported, whatever else is wrong |
| TerminalWidgets.AfterDoResize | packages/terminal/src/browser/terminal-widget.ts:361-367 | the columns become the proposed ones and the rows one fewer than proposed; nothing else changes |
| TerminalWidgets.StartCases | packages/terminal/src/browser/terminal-widget.ts:215-239 | `terminalId` is never -1 afterwards; a usable id is connected and sized when the terminal is open, and otherwise waits for it; a failed attach logs and falls back to creating; a failed create only logs |
| TerminalWidgets.StartWaitsForOpen | packages/terminal/src/browser/terminal-widget.ts:237-362 | a `start` on a closed terminal connects nothing until `openTerm` succeeds, then sizes the terminal and connects the created id |
| TerminalWidgets.RestoreStateOnlyOnce | packages/terminal/src/browser/terminal-widget.ts:133-141 | `restoreState` takes effect on its first call only |
| TerminalWidgets.DisposeCases | packages/terminal/src/browser/terminal-widget.ts:352-358 | dispose closes the backend terminal exactly when `closeOnDispose` is set and an id is held; after `storeState` it never does |
| TerminalWidgets.OpenTermCases | packages/terminal/src/browser/terminal-widget.ts:241-260 | open succeeds only when visible and not open; a refusal ("Already open" or "Not visible") clears `isOpeningTerm`; after success every call says "Already open" |
| TerminalWidgets.NewTerminalWidget | packages/terminal/src/browser/terminal-widget.ts:70-106 | construction throws the page-property error exactly when `getCSSPropertiesFromPage` rejects the page's values; otherwise the terminal takes the accepted font and colours |
| TerminalWidgets.TerminalWidget.constructor | packages/terminal/src/browser/terminal-widget.ts:56-106 | a new widget holds no terminal, has the given title and undefined geometry, is not restored, open or visible, closes its terminal on dispose, has logged nothing, and keeps the given font and colours |
| TerminalWidgets.TerminalWidget.Start | packages/terminal/src/browser/terminal-widget.ts:215-239 | the method, recursive on a failed attach and suspended while the terminal is closed, performs `AfterStart` |
| TerminalWidgets.TerminalWidget.TermOpened | packages/terminal/src/browser/terminal-widget.ts:237-362 | once the terminal is open, each suspended `start` resizes and connects the current `terminalId`; performs `AfterTermOpened` |
| TerminalWidgets.TerminalWidget.RestoreState | packages/terminal/src/browser/terminal-widget.ts:133-141 | performs `AfterRestoreState` |
| TerminalWidgets.TerminalWidget.StoreState | packages/terminal/src/browser/terminal-widget.ts:128-131 | clears `closeOnDispose` and returns the id and title |
| TerminalWidgets.TerminalWidget.OpenTerm | packages/terminal/src/browser/terminal-widget.ts:241-260 | performs `AfterOpenTerm` |
| TerminalWidgets.TerminalWidget.Dispose | packages/terminal/src/browser/terminal-widget.ts:352-359 | performs `AfterDispose` |
| TerminalWidgets.TerminalWidget.DoResize | packages/terminal/src/browser/terminal-widget.ts:361-367 | performs `AfterDoResize` |

## Left out

- The RPC engine (`RPCProtocolImpl`), proxies and message dispatch are not part of this model. The command bridge's delegate registry and extension-side proxy are represented by logs.
- LazyPromise cancellation as an operation: nothing in the source sets `isCanceled`, so only the field and its guards are modelled.
- Native promise scheduling, `await` ordering and timers: an awaited step runs at once. A browser timer is a scheduled id and a method for the moment it elapses. The throttle's `delay` is kept but time is not modelled.
- TerminalWidget.Start: the retry `start()` after a failed attach is not awaited in the source; the model runs it to completion before returning. The wait for the first resize (`waitForResized`) is not modelled. The wait for `waitForTermOpened` is modelled by the count of suspended calls, which `TermOpened` resumes; the interleaving of several suspended calls with other operations is not modelled.
- TerminalWidgets.TerminalWidget.constructor: the `title` and `resize` listeners, the theme-change listener that updates the terminal's colours, the `destroyTermOnClose` disposal, the Firefox scrollbar workaround and the endpoint are not modelled. A throwing `getCSSPropertiesFromPage` is modelled by `NewTerminalWidget`, since a Dafny constructor cannot fail.
- TerminalWidget: `onAfterShow`, `onAfterAttach`, `onResize`, `registerResize`, the socket connection and the terminal watcher are event wiring around Xterm and websockets, and are not modelled.
- TerminalWidget: the logger is a log of the kinds of error reported (`LoggedError`); `Message` gives each kind's text.
- FuzzySearch.RangesOf, FuzzySearch.MapRanges, NavigatorSearch.DeleteLast, NavigatorSearch.NextState: a Dafny string is a sequence of Unicode scalar values, so offsets and Backspace count code points. The source counts UTF-16 code units: `split('')` gives two entries for a character outside the Basic Multilingual Plane, and `substr` can leave half of a surrogate pair.
- Queues.NormalizeMaxSize: `maxSize` is an integer or absent here. A JavaScript number can also be fractional (2.5 keeps two items, because the length test is `>`) or `NaN` (falsy, so the size becomes `MAX_SAFE_INTEGER`, as for a missing one).
- TerminalWidgets.ParseFontSize: `Number.parseInt` loses precision above 2^53; the model gives the exact integer.
- Path resolution and `FileUri` in `setArguments` and `getRootURIFromCli`, and reading and writing the storage file: the storage file is a field, and the argument choice is modelled without path joining.
- Dependency-injection modules, `java-commands.ts`, `extension-service.ts`, `webpack-generator.ts`, `uri.ts` and `navigator-model.ts` hold no logic of this core.
- The fuzzy library's matching and scoring: its results are inputs. The tree walk that collects the navigator's visible nodes is an input too.
- DOM construction, CSS reads (the computed style is a map), Electron's `buildFromTemplate` and the search box's rendering.
- `Key.equals` and `Key.getEasyKey` are taken to compare key codes and to give the key's easy string. The widget's `hide` is taken to run `onBeforeHide` only when the box is visible.
- Theming: the `themes` object's key order is modelled as registration order. JavaScript orders integer-like keys first, and inherited prototype keys such as `constructor` are not modelled. `startupTheme`, `loadUserTheme`, `activeIndex`, the picker's `onType` item list and the built-in theme provider are not modelled.
- Theming.CurrentThemeIsActive: stated only for a non-empty id, because a stored `''` is falsy and `getCurrentTheme` then uses the default id.
- FuzzySearch.LoopRangesBound: proves at most one range per POST marker for any input. The half-length bound holds only for strings the fuzzy library produces (`MatchedRangesProperties`), and `MisplacedMarkersTooManyRanges` shows that it fails for arbitrary strings.
- MenuPlugin: the onStart loop that hides the top panel and sets the application menu is UI wiring. A menu item's `click` is represented by its command id. The accumulator array is threaded as a sequence value; its aliasing between the recursive calls is not modelled (the same array is returned, so the result is the same).
- WorkspaceServer.ReadFromUserStorage: a stored `recentRoots` is an array of strings, `null`, or undefined. Other values that pass `WorkspaceData.is` (a number, a string, an object, an array holding non-strings) are not modelled. The TypeError texts are V8's of the time.
- Queues.Queue: the `equivalent` callback is a pure function here. The duplicate-freedom lemmas need it to be an equality, as it is in `calculateRecentRoots`.
