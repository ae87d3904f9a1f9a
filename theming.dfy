/**
 * The colour theme service and the "Change Color Theme" command
 * (packages/core/src/browser/theming.ts).
 *
 * `localStorage` is the `stored` field (the value under the key `theme`);
 * a theme's `activate`/`deactivate` effects are recorded in order in a log;
 * the theme change emitter is a log of the events it fired. Reading a
 * property of an undefined theme throws in the source; here it makes the
 * operation report that it threw.
 */
module Theming {
  import opened Wrappers
  import opened Queues

  /** The default theme id the service is constructed with. */
  const DefaultThemeId: string := "dark"

  datatype Theme = Theme(id: string, labelText: string, description: Option<string>, editorTheme: Option<string>)

  /** A call to a theme's `activate` or `deactivate`. */
  datatype Effect = Activated(id: string) | Deactivated(id: string)

  datatype ThemeChange = ThemeChange(newTheme: Theme, oldTheme: Option<Theme>)

  /**
   * The service's fields: the themes by id, the order of their ids (the
   * iteration order of the `themes` object), the active theme, the stored
   * theme id, and the logs of effects and change events.
   */
  datatype ServiceState = ServiceState(
    themes: map<string, Theme>,
    order: seq<string>,
    active: Option<Theme>,
    stored: Option<string>,
    effects: seq<Effect>,
    changes: seq<ThemeChange>)

  /** Every theme is stored under its own id, and the order lists each id once. */
  predicate ServiceValid(s: ServiceState) {
    && (forall id | id in s.themes :: s.themes[id].id == id)
    && NoDuplicates(s.order)
    && (forall id | id in s.themes :: id in s.order)
    && (forall i | 0 <= i < |s.order| :: s.order[i] in s.themes)
  }

  /**
   * A new service: no themes, nothing active, no effects or events. The
   * `theme` entry in `localStorage` is whatever an earlier session left there.
   */
  function InitialService(persisted: Option<string>): (r: ServiceState)
    ensures ServiceValid(r)
    ensures r.themes == map[] && r.order == [] && r.active == None
    ensures r.stored == persisted
  {
    ServiceState(map[], [], None, persisted, [], [])
  }

  /** `register`: each theme is stored under its id; a later theme with the same id replaces the earlier one. */
  function AfterRegister(s: ServiceState, ts: seq<Theme>): ServiceState
    decreases |ts|
  {
    if ts == [] then s
    else
      var t := ts[0];
      var order := if t.id in s.themes then s.order else s.order + [t.id];
      AfterRegister(s.(themes := s.themes[t.id := t], order := order), ts[1..])
  }

  /** `getThemes`: the themes in the order of their ids. */
  function GetThemes(s: ServiceState): (r: seq<Theme>)
    requires ServiceValid(s)
    ensures |r| == |s.order|
  {
    seq(|s.order|, i requires 0 <= i < |s.order| => s.themes[s.order[i]])
  }

  /** `getTheme`: the theme with that id, otherwise the default theme, if that is registered. */
  function GetTheme(s: ServiceState, themeId: string): (r: Option<Theme>)
    ensures themeId in s.themes ==> r == Some(s.themes[themeId])
    ensures themeId !in s.themes && DefaultThemeId in s.themes ==> r == Some(s.themes[DefaultThemeId])
    ensures themeId !in s.themes && DefaultThemeId !in s.themes ==> r == None
  {
    if themeId in s.themes then Some(s.themes[themeId])
    else if DefaultThemeId in s.themes then Some(s.themes[DefaultThemeId])
    else None
  }

  /** `getCurrentTheme`: the stored id, or the default id when nothing (or `''`) is stored, looked up with fallback. */
  function CurrentTheme(s: ServiceState): (r: Option<Theme>)
    ensures r.Some? ==> r.value in s.themes.Values
    ensures r.None? <==> DefaultThemeId !in s.themes && (s.stored.None? || s.stored.value == "" || s.stored.value !in s.themes)
    ensures s.stored.Some? && s.stored.value != "" && s.stored.value in s.themes ==> r == Some(s.themes[s.stored.value])
    ensures (s.stored.None? || s.stored.value == "" || s.stored.value !in s.themes) && DefaultThemeId in s.themes ==>
              r == Some(s.themes[DefaultThemeId])
  {
    var themeId := if s.stored.Some? && s.stored.value != "" then s.stored.value else DefaultThemeId;
    GetTheme(s, themeId)
  }

  /**
   * `setCurrentTheme`: deactivate the active theme, activate the new one,
   * make it active, store the requested id and fire the change event. When
   * neither the id nor the default is registered, `activate` is called on
   * `undefined`: the deactivation has happened and nothing else does.
   */
  function AfterSetCurrentTheme(s: ServiceState, themeId: string): (ServiceState, bool) {
    var newTheme := GetTheme(s, themeId);
    var oldTheme := s.active;
    var effects := s.effects + (if oldTheme.Some? then [Deactivated(oldTheme.value.id)] else []);
    if newTheme.None? then (s.(effects := effects), true)
    else
      (s.(effects := effects + [Activated(newTheme.value.id)],
          active := newTheme,
          stored := Some(themeId),
          changes := s.changes + [ThemeChange(newTheme.value, oldTheme)]), false)
  }

  /** Registration keeps every theme under its own id, each id listed once. */
  lemma {:induction false} RegisterPreservesValid(s: ServiceState, ts: seq<Theme>)
    requires ServiceValid(s)
    ensures ServiceValid(AfterRegister(s, ts))
    decreases |ts|
  {
    if ts != [] {
      var t := ts[0];
      var order := if t.id in s.themes then s.order else s.order + [t.id];
      var next := s.(themes := s.themes[t.id := t], order := order);
      assert NoDuplicates(order) by {
        if t.id !in s.themes {
          assert t.id !in s.order;
        }
      }
      RegisterPreservesValid(next, ts[1..]);
    }
  }

  /** The last theme in `ts` with the given id, if there is one. */
  function LastWithId(ts: seq<Theme>, id: string): Option<Theme>
    decreases |ts|
  {
    if ts == [] then None
    else
      var later := LastWithId(ts[1..], id);
      if later.Some? then later else if ts[0].id == id then Some(ts[0]) else None
  }

  /** `LastWithId` finds a theme with that id after which none follows, and finds nothing only when no theme has that id. */
  lemma {:induction false} LastWithIdProperties(ts: seq<Theme>, id: string)
    ensures LastWithId(ts, id).None? <==> forall k | 0 <= k < |ts| :: ts[k].id != id
    ensures LastWithId(ts, id).Some? ==>
              exists k | 0 <= k < |ts| :: ts[k] == LastWithId(ts, id).value && ts[k].id == id
                                          && forall j | k < j < |ts| :: ts[j].id != id
    decreases |ts|
  {
    if ts != [] {
      LastWithIdProperties(ts[1..], id);
      assert forall k | 1 <= k < |ts| :: ts[k] == ts[1..][k - 1];
      var later := LastWithId(ts[1..], id);
      if later.Some? {
        var k :| 0 <= k < |ts| - 1 && ts[1..][k] == later.value && ts[1..][k].id == id
                 && forall j | k < j < |ts| - 1 :: ts[1..][j].id != id;
        assert ts[k + 1] == later.value;
      }
    }
  }

  /**
   * After `register(...ts)` an id that occurs in `ts` holds the last theme
   * with that id; any other id keeps its theme; nothing else changes.
   */
  lemma {:induction false} RegisterLastWins(s: ServiceState, ts: seq<Theme>, id: string)
    ensures var r := AfterRegister(s, ts);
            && (LastWithId(ts, id).Some? ==> id in r.themes && r.themes[id] == LastWithId(ts, id).value)
            && (LastWithId(ts, id).None? ==>
                  (id in r.themes <==> id in s.themes) && (id in s.themes ==> r.themes[id] == s.themes[id]))
            && r.active == s.active && r.stored == s.stored && r.effects == s.effects && r.changes == s.changes
    decreases |ts|
  {
    if ts != [] {
      var t := ts[0];
      var order := if t.id in s.themes then s.order else s.order + [t.id];
      RegisterLastWins(s.(themes := s.themes[t.id := t], order := order), ts[1..], id);
    }
  }

  /**
   * A theme id stored by an earlier session is picked up: once a theme with
   * that id is registered, `getCurrentTheme` returns the last such theme.
   */
  lemma PersistedThemeIsPickedUp(persisted: string, ts: seq<Theme>)
    requires persisted != "" && LastWithId(ts, persisted).Some?
    ensures CurrentTheme(AfterRegister(InitialService(Some(persisted)), ts)) == LastWithId(ts, persisted)
  {
    RegisterLastWins(InitialService(Some(persisted)), ts, persisted);
  }

  /** `getThemes` lists every registered theme, only registered themes, and none twice. */
  lemma GetThemesEachOnce(s: ServiceState)
    requires ServiceValid(s)
    ensures forall id | id in s.themes :: exists i | 0 <= i < |GetThemes(s)| :: GetThemes(s)[i] == s.themes[id]
    ensures forall i | 0 <= i < |GetThemes(s)| :: GetThemes(s)[i] in s.themes.Values
    ensures forall i, j | 0 <= i < j < |GetThemes(s)| :: GetThemes(s)[i] != GetThemes(s)[j]
  {
    forall id | id in s.themes ensures exists i | 0 <= i < |GetThemes(s)| :: GetThemes(s)[i] == s.themes[id] {
      var i :| 0 <= i < |s.order| && s.order[i] == id;
      assert GetThemes(s)[i] == s.themes[id];
    }
    forall i | 0 <= i < |GetThemes(s)| ensures GetThemes(s)[i] in s.themes.Values {
      assert s.order[i] in s.themes;
    }
    forall i, j | 0 <= i < j < |GetThemes(s)| ensures GetThemes(s)[i] != GetThemes(s)[j] {
      assert GetThemes(s)[i].id == s.order[i] && GetThemes(s)[j].id == s.order[j];
    }
  }

  /**
   * `setCurrentTheme` deactivates the old theme before activating the new
   * one, stores the requested id even when the default was used, and fires
   * one event with the new and old themes.
   */
  lemma SetCurrentThemeEffects(s: ServiceState, themeId: string)
    requires GetTheme(s, themeId).Some?
    ensures var (r, threw) := AfterSetCurrentTheme(s, themeId);
            var newTheme := GetTheme(s, themeId).value;
            && !threw
            && r.effects == s.effects + (if s.active.Some? then [Deactivated(s.active.value.id), Activated(newTheme.id)] else [Activated(newTheme.id)])
            && r.active == Some(newTheme)
            && r.stored == Some(themeId)
            && r.changes == s.changes + [ThemeChange(newTheme, s.active)]
            && r.themes == s.themes && r.order == s.order
  {
  }

  /** `setCurrentTheme` leaves the registry alone, so it stays valid whatever the id. */
  lemma SetCurrentThemePreservesValid(s: ServiceState, themeId: string)
    requires ServiceValid(s)
    ensures var r := AfterSetCurrentTheme(s, themeId).0;
            r.themes == s.themes && r.order == s.order && ServiceValid(r)
  {
  }

  /** With neither the id nor the default registered, only the old theme's deactivation happens before the throw. */
  lemma SetCurrentThemeUnknown(s: ServiceState, themeId: string)
    requires themeId !in s.themes && DefaultThemeId !in s.themes
    ensures var (r, threw) := AfterSetCurrentTheme(s, themeId);
            && threw
            && r == s.(effects := s.effects + (if s.active.Some? then [Deactivated(s.active.value.id)] else []))
  {
  }

  /**
   * After a successful `setCurrentTheme` with a non-empty id,
   * `getCurrentTheme` returns the theme that was made active.
   */
  lemma CurrentThemeIsActive(s: ServiceState, themeId: string)
    requires themeId != "" && GetTheme(s, themeId).Some?
    ensures var (r, _) := AfterSetCurrentTheme(s, themeId);
            CurrentTheme(r) == r.active
  {
  }

  /** The picker's state: the service and the id to revert to when the picker closes. */
  datatype PickerState = PickerState(service: ServiceState, resetTo: Option<string>)

  /** The picker's two ways of running an item. */
  datatype QuickOpenMode = Preview | Open

  /** `execute`: remember the current theme's id (reading the id of no theme throws). */
  function AfterExecute(p: PickerState): (PickerState, bool) {
    var current := CurrentTheme(p.service);
    if current.None? then (p, true) else (p.(resetTo := Some(current.value.id)), false)
  }

  /** Running a picker item: opening clears `resetTo`; both modes switch the theme. */
  function AfterRun(p: PickerState, themeId: string, mode: QuickOpenMode): (PickerState, bool) {
    var resetTo := if mode == Open then None else p.resetTo;
    var (service, threw) := AfterSetCurrentTheme(p.service, themeId);
    (PickerState(service, resetTo), threw)
  }

  /** `onClose`: revert to `resetTo` when it is set and not `''`. */
  function AfterClose(p: PickerState): (PickerState, bool) {
    if p.resetTo.Some? && p.resetTo.value != "" then
      var (service, threw) := AfterSetCurrentTheme(p.service, p.resetTo.value);
      (p.(service := service), threw)
    else (p, false)
  }

  /**
   * Previewing a theme and closing the picker brings back the theme that
   * was current when the picker opened; opening a theme and closing keeps it.
   */
  lemma PickerRevertsOnlyPreviews(p: PickerState, themeId: string, mode: QuickOpenMode)
    requires ServiceValid(p.service)
    requires CurrentTheme(p.service).Some? && CurrentTheme(p.service).value.id != ""
    requires GetTheme(p.service, themeId).Some?
    ensures var (started, _) := AfterExecute(p);
            var (ran, _) := AfterRun(started, themeId, mode);
            var (closed, threw) := AfterClose(ran);
            && !threw
            && (mode == Preview ==> closed.service.active == CurrentTheme(p.service))
            && (mode == Open ==> closed.service.active == GetTheme(p.service, themeId) && closed == ran)
  {
    var current := CurrentTheme(p.service).value;
    assert GetTheme(p.service, current.id) == Some(current);
  }

  class ThemeService {
    var themes: map<string, Theme>
    var order: seq<string>
    var activeTheme: Option<Theme>
    var stored: Option<string>
    var effects: seq<Effect>
    var changes: seq<ThemeChange>

    function State(): ServiceState
      reads this
    {
      ServiceState(themes, order, activeTheme, stored, effects, changes)
    }

    /** `persisted` is the `theme` entry an earlier session left in `localStorage`. */
    constructor (persisted: Option<string>)
      ensures State() == InitialService(persisted)
    {
      themes := map[];
      order := [];
      activeTheme := None;
      stored := persisted;
      effects := [];
      changes := [];
    }

    /** `register(...themes)`: the loop storing each theme under its id. */
    method Register(ts: seq<Theme>)
      modifies this
      ensures State() == AfterRegister(old(State()), ts)
    {
      for k := 0 to |ts|
        invariant AfterRegister(State(), ts[k..]) == AfterRegister(old(State()), ts)
      {
        assert ts[k..][1..] == ts[k + 1..];
        var t := ts[k];
        if t.id !in themes {
          order := order + [t.id];
        }
        themes := themes[t.id := t];
      }
      assert ts[|ts|..] == [];
    }

    /** `getThemes`: the loop over the ids, in order. */
    method GetThemesList() returns (result: seq<Theme>)
      requires ServiceValid(State())
      ensures result == GetThemes(State())
    {
      result := [];
      for i := 0 to |order|
        invariant result == GetThemes(State())[..i]
      {
        result := result + [themes[order[i]]];
      }
    }

    /** `getCurrentTheme` on the service's fields. */
    function GetCurrentTheme(): (r: Option<Theme>)
      reads this
      ensures r == CurrentTheme(State())
      ensures r.Some? ==> r.value in themes.Values
    {
      CurrentTheme(State())
    }

    /** `setCurrentTheme`; `threw` reports the call of `activate` on no theme. */
    method SetCurrentTheme(themeId: string) returns (threw: bool)
      modifies this
      ensures (State(), threw) == AfterSetCurrentTheme(old(State()), themeId)
    {
      var newTheme := GetTheme(State(), themeId);
      var oldTheme := activeTheme;
      if oldTheme.Some? {
        effects := effects + [Deactivated(oldTheme.value.id)];
      } else {
        assert effects + [] == effects;
      }
      if newTheme.None? {
        return true;
      }
      effects := effects + [Activated(newTheme.value.id)];
      activeTheme := newTheme;
      stored := Some(themeId);
      changes := changes + [ThemeChange(newTheme.value, oldTheme)];
      return false;
    }
  }

  class ThemingCommandContribution {
    var resetTo: Option<string>
    const themeService: ThemeService

    function State(): PickerState
      reads this, themeService
    {
      PickerState(themeService.State(), resetTo)
    }

    constructor (themeService: ThemeService)
      ensures this.themeService == themeService && resetTo == None
    {
      this.themeService := themeService;
      resetTo := None;
    }

    method Execute() returns (threw: bool)
      modifies this
      ensures (State(), threw) == AfterExecute(old(State()))
    {
      var current := themeService.GetCurrentTheme();
      if current.None? {
        return true;
      }
      resetTo := Some(current.value.id);
      return false;
    }

    /** The `run` callback of the picker item for `themeId`. */
    method Run(themeId: string, mode: QuickOpenMode) returns (threw: bool)
      modifies this, themeService
      ensures (State(), threw) == AfterRun(old(State()), themeId, mode)
    {
      if mode == Open {
        resetTo := None;
      }
      threw := themeService.SetCurrentTheme(themeId);
    }

    /** The picker's `onClose` callback. */
    method OnClose() returns (threw: bool)
      modifies themeService
      ensures (State(), threw) == AfterClose(old(State()))
    {
      threw := false;
      if resetTo.Some? && resetTo.value != "" {
        threw := themeService.SetCurrentTheme(resetTo.value);
      }
    }
  }
}
