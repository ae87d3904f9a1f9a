/**
 * The terminal widget's reading of the page's CSS custom properties and its
 * lifecycle flags (packages/terminal/src/browser/terminal-widget.ts).
 *
 * The page's computed style is a map from property name to value (a
 * missing property reads as `''`, as `getPropertyValue` gives). The
 * shell terminal server's answers to `create` and `attach`, and the
 * geometry Xterm proposes, are parameters; the calls the widget makes to
 * the server and the logger are recorded in logs. Promise scheduling is not
 * modelled: an awaited step runs at once.
 */
module TerminalWidgets {
  import opened Wrappers

  // ---------------------------------------------------------------------------
  // Strings: trimming, digits, colours

  /** The characters `String.prototype.trim` removes: white space and line terminators. */
  predicate IsWhitespace(c: char) {
    c as int in {9, 10, 11, 12, 13, 32, 160, 5760, 8232, 8233, 8239, 8287, 12288, 65279}
    || 8192 <= c as int <= 8202
  }

  function TrimStart(s: string): string
    decreases |s|
  {
    if s != [] && IsWhitespace(s[0]) then TrimStart(s[1..]) else s
  }

  function TrimEnd(s: string): string
    decreases |s|
  {
    if s != [] && IsWhitespace(s[|s| - 1]) then TrimEnd(s[..|s| - 1]) else s
  }

  /** `trim`: remove leading and trailing white space. */
  function Trim(s: string): string {
    TrimEnd(TrimStart(s))
  }

  predicate AllWhitespace(s: string) {
    forall k | 0 <= k < |s| :: IsWhitespace(s[k])
  }

  /** `TrimStart` drops a run of white space at the front and keeps the rest. */
  lemma {:induction false} TrimStartProperties(s: string)
    ensures exists i | 0 <= i <= |s| :: TrimStart(s) == s[i..] && AllWhitespace(s[..i])
    ensures TrimStart(s) != [] ==> !IsWhitespace(TrimStart(s)[0])
    decreases |s|
  {
    if s != [] && IsWhitespace(s[0]) {
      var tail := s[1..];
      TrimStartProperties(tail);
      var i :| 0 <= i <= |tail| && TrimStart(tail) == tail[i..] && AllWhitespace(tail[..i]);
      assert TrimStart(s) == TrimStart(tail) == tail[i..] == s[i + 1..];
      assert AllWhitespace(s[..i + 1]) by {
        var front := s[..i + 1];
        forall k | 0 <= k < |front| ensures IsWhitespace(front[k]) {
          if k > 0 {
            assert front[k] == s[k] == tail[k - 1] == tail[..i][k - 1];
          }
        }
      }
    } else {
      assert s == s[0..] && s[..0] == [];
    }
  }

  /** `TrimEnd` drops a run of white space at the back and keeps the rest. */
  lemma {:induction false} TrimEndProperties(s: string)
    ensures exists j | 0 <= j <= |s| :: TrimEnd(s) == s[..j] && AllWhitespace(s[j..])
    ensures TrimEnd(s) != [] ==> !IsWhitespace(TrimEnd(s)[|TrimEnd(s)| - 1])
    decreases |s|
  {
    if s != [] && IsWhitespace(s[|s| - 1]) {
      var init := s[..|s| - 1];
      TrimEndProperties(init);
      var j :| 0 <= j <= |init| && TrimEnd(init) == init[..j] && AllWhitespace(init[j..]);
      assert TrimEnd(s) == TrimEnd(init) == init[..j] == s[..j];
      assert AllWhitespace(s[j..]) by {
        var back := s[j..];
        forall k | 0 <= k < |back| ensures IsWhitespace(back[k]) {
          if k < |back| - 1 {
            assert back[k] == s[j + k] == init[j + k] == init[j..][k];
          }
        }
      }
    } else {
      assert s == s[..|s|] && s[|s|..] == [];
    }
  }

  /**
   * `trim` keeps a contiguous part of the string and removes only white
   * space around it.
   */
  lemma TrimProperties(s: string)
    ensures exists i, j | 0 <= i <= j <= |s| :: Trim(s) == s[i..j] && AllWhitespace(s[..i]) && AllWhitespace(s[j..])
  {
    TrimStartProperties(s);
    var i :| 0 <= i <= |s| && TrimStart(s) == s[i..] && AllWhitespace(s[..i]);
    var t := s[i..];
    TrimEndProperties(t);
    var j :| 0 <= j <= |t| && TrimEnd(t) == t[..j] && AllWhitespace(t[j..]);
    assert t[..j] == s[i..i + j] && t[j..] == s[i + j..];
    assert Trim(s) == s[i..i + j];
  }

  /** `trim` leaves no white space at either end. */
  lemma TrimEnds(s: string)
    ensures Trim(s) != [] ==> !IsWhitespace(Trim(s)[0]) && !IsWhitespace(Trim(s)[|Trim(s)| - 1])
  {
    var t := TrimStart(s);
    TrimStartProperties(s);
    TrimEndProperties(t);
    if Trim(s) != [] {
      var j :| 0 <= j <= |t| && TrimEnd(t) == t[..j] && forall k | j <= k < |t| :: IsWhitespace(t[k]);
      assert Trim(s)[0] == t[0];
    }
  }

  /** A string without white space at its ends is its own trim. */
  lemma TrimmedIsFixed(s: string)
    requires s != [] ==> !IsWhitespace(s[0]) && !IsWhitespace(s[|s| - 1])
    ensures Trim(s) == s
  {
  }

  /** Trimming twice is trimming once. */
  lemma TrimIdempotent(s: string)
    ensures Trim(Trim(s)) == Trim(s)
  {
    TrimEnds(s);
    TrimmedIsFixed(Trim(s));
  }

  predicate IsDigit(c: char) {
    '0' <= c <= '9'
  }

  predicate IsHexDigit(c: char) {
    IsDigit(c) || 'a' <= c <= 'f' || 'A' <= c <= 'F'
  }

  predicate AllDigits(s: string) {
    forall k | 0 <= k < |s| :: IsDigit(s[k])
  }

  /** The number a string of decimal digits denotes (`parseInt` of it). */
  function DigitsValue(s: string): nat
    requires AllDigits(s)
    decreases |s|
  {
    if s == [] then 0
    else DigitsValue(s[..|s| - 1]) * 10 + (s[|s| - 1] as int - '0' as int)
  }

  /** The decimal notation of a natural number. */
  function ShowNat(n: nat): (r: string)
    ensures |r| > 0 && AllDigits(r)
    decreases n
  {
    if n < 10 then [('0' as int + n) as char]
    else
      var front := ShowNat(n / 10);
      assert forall k | 0 <= k < |front| :: (front + [('0' as int + n % 10) as char])[k] == front[k];
      front + [('0' as int + n % 10) as char]
  }

  /** The decimal notation of an integer, as a template string prints it. */
  function ShowInt(n: int): string {
    if n < 0 then "-" + ShowNat(-n) else ShowNat(n)
  }

  /** Reading back a number's decimal notation gives the number. */
  lemma {:induction false} DigitsValueOfShowNat(n: nat)
    ensures DigitsValue(ShowNat(n)) == n
    decreases n
  {
    var r := ShowNat(n);
    if n >= 10 {
      DigitsValueOfShowNat(n / 10);
      assert r[..|r| - 1] == ShowNat(n / 10);
    }
  }

  /** `^(\d+)px$`: one or more digits followed by `px`, and nothing else. */
  predicate IsPixelSize(t: string) {
    |t| >= 3 && t[|t| - 2..] == "px" && AllDigits(t[..|t| - 2])
  }

  /** `^#([0-9a-fA-F]{3}|[0-9a-fA-F]{6})$`. */
  predicate IsColor(s: string) {
    (|s| == 4 || |s| == 7) && s[0] == '#' && forall k | 1 <= k < |s| :: IsHexDigit(s[k])
  }

  /** The colours accepted are exactly `#` followed by three or six hexadecimal digits. */
  lemma ColorShapes(hex: string)
    ensures IsColor("#" + hex) <==> (|hex| == 3 || |hex| == 6) && forall k | 0 <= k < |hex| :: IsHexDigit(hex[k])
  {
    var s := "#" + hex;
    assert forall k | 0 <= k < |hex| :: s[k + 1] == hex[k];
  }

  /** A colour has no white space to trim. */
  lemma ColorIsTrimmed(s: string)
    requires IsColor(s)
    ensures Trim(s) == s
  {
    assert !IsWhitespace(s[|s| - 1]);
  }

  // ---------------------------------------------------------------------------
  // getCSSPropertiesFromPage

  datatype TerminalCSSProperties = TerminalCSSProperties(fontFamily: string, fontSize: nat, foreground: string, background: string)

  const FontFamilyName: string := "--theia-code-font-family"
  const FontSizeName: string := "--theia-code-font-size"
  const ForegroundName: string := "--theia-ui-font-color1"
  const BackgroundName: string := "--theia-layout-color3"

  /** `getPropertyValue`: a property the page does not define reads as `''`. */
  function PropertyValue(props: map<string, string>, name: string): string {
    if name in props then props[name] else ""
  }

  /** `lookup`: the trimmed value, or an error when that is empty. */
  function Lookup(props: map<string, string>, name: string): (r: Result<string>)
    ensures r.Success? <==> Trim(PropertyValue(props, name)) != ""
    ensures r.Success? ==> r.value == Trim(PropertyValue(props, name))
    ensures r.Failure? ==> r.error == "Couldn't find value of " + name
  {
    var value := Trim(PropertyValue(props, name));
    if value == "" then Failure("Couldn't find value of " + name) else Success(value)
  }

  /** The font size: the pixel count of a trimmed `<digits>px` value. */
  function ParseFontSize(fontSizeStr: string): Result<nat> {
    var t := Trim(fontSizeStr);
    if IsPixelSize(t) then Success(DigitsValue(t[..|t| - 2]))
    else Failure("Unexpected format for " + FontSizeName + " (" + fontSizeStr + ")")
  }

  /** A size written out as `<n>px` reads back as `n`, with or without white space around it. */
  lemma FontSizeRoundTrip(n: nat, before: string, after: string)
    requires forall k | 0 <= k < |before| :: IsWhitespace(before[k])
    requires forall k | 0 <= k < |after| :: IsWhitespace(after[k])
    ensures ParseFontSize(ShowNat(n) + "px") == Success(n)
    ensures ParseFontSize(before + ShowNat(n) + "px" + after) == Success(n)
  {
    var t := ShowNat(n) + "px";
    TrimmedIsFixed(t);
    assert t[..|t| - 2] == ShowNat(n) && t[|t| - 2..] == "px";
    DigitsValueOfShowNat(n);
    assert before + ShowNat(n) + "px" + after == before + t + after;
    assert IsDigit(t[0]) && (t + after)[0] == t[0];
    TrimStartOfPadding(before, t + after);
    assert before + t + after == before + (t + after);
    TrimEndOfPadding(t, after);
    assert Trim(before + t + after) == t;
  }

  lemma {:induction false} TrimStartOfPadding(ws: string, rest: string)
    requires forall k | 0 <= k < |ws| :: IsWhitespace(ws[k])
    requires rest != [] && !IsWhitespace(rest[0])
    ensures TrimStart(ws + rest) == rest
    decreases |ws|
  {
    if ws == [] {
      assert ws + rest == rest;
    } else {
      assert (ws + rest)[1..] == ws[1..] + rest;
      TrimStartOfPadding(ws[1..], rest);
    }
  }

  lemma {:induction false} TrimEndOfPadding(rest: string, ws: string)
    requires forall k | 0 <= k < |ws| :: IsWhitespace(ws[k])
    requires rest != [] && !IsWhitespace(rest[0]) && !IsWhitespace(rest[|rest| - 1])
    ensures TrimEnd(rest + ws) == rest
    decreases |ws|
  {
    if ws == [] {
      assert rest + ws == rest;
    } else {
      assert (rest + ws)[..|rest + ws| - 1] == rest + ws[..|ws| - 1];
      TrimEndOfPadding(rest, ws[..|ws| - 1]);
    }
  }

  /**
   * `getCSSPropertiesFromPage`: look up the four properties in order, then
   * check the font size format, then the two colours.
   */
  function CSSProperties(props: map<string, string>): Result<TerminalCSSProperties> {
    var fontFamily := Lookup(props, FontFamilyName);
    if fontFamily.Failure? then Failure(fontFamily.error) else
    var fontSizeStr := Lookup(props, FontSizeName);
    if fontSizeStr.Failure? then Failure(fontSizeStr.error) else
    var foreground := Lookup(props, ForegroundName);
    if foreground.Failure? then Failure(foreground.error) else
    var background := Lookup(props, BackgroundName);
    if background.Failure? then Failure(background.error) else
    var fontSize := ParseFontSize(fontSizeStr.value);
    if fontSize.Failure? then Failure(fontSize.error)
    else if !IsColor(foreground.value) then
      Failure("Unexpected format for " + ForegroundName + " (" + foreground.value + ")")
    else if !IsColor(background.value) then
      Failure("Unexpected format for " + BackgroundName + " (" + background.value + ")")
    else Success(TerminalCSSProperties(fontFamily.value, fontSize.value, foreground.value, background.value))
  }

  /**
   * The page's properties are accepted exactly when the font family is not
   * blank, the font size reads `<digits>px` and both colours are hex
   * colours (all after trimming); the accepted values are the trimmed ones.
   */
  lemma CSSPropertiesSucceedsIff(props: map<string, string>)
    ensures var fontSizeStr := Trim(PropertyValue(props, FontSizeName));
            CSSProperties(props).Success? <==>
              && Trim(PropertyValue(props, FontFamilyName)) != ""
              && IsPixelSize(fontSizeStr)
              && IsColor(Trim(PropertyValue(props, ForegroundName)))
              && IsColor(Trim(PropertyValue(props, BackgroundName)))
    ensures CSSProperties(props).Success? ==>
              var p := CSSProperties(props).value;
              var fontSizeStr := Trim(PropertyValue(props, FontSizeName));
              && p.fontFamily == Trim(PropertyValue(props, FontFamilyName))
              && p.foreground == Trim(PropertyValue(props, ForegroundName))
              && p.background == Trim(PropertyValue(props, BackgroundName))
              && IsPixelSize(fontSizeStr) && p.fontSize == DigitsValue(fontSizeStr[..|fontSizeStr| - 2])
              && Trim(p.fontFamily) == p.fontFamily
  {
    TrimIdempotent(PropertyValue(props, FontSizeName));
    TrimIdempotent(PropertyValue(props, FontFamilyName));
  }

  /** A missing font family is reported first, whatever else is wrong. */
  lemma MissingFontFamilyFirst(props: map<string, string>)
    requires Trim(PropertyValue(props, FontFamilyName)) == ""
    ensures CSSProperties(props) == Failure("Couldn't find value of " + FontFamilyName)
  {
  }

  // ---------------------------------------------------------------------------
  // The widget's lifecycle flags

  /** What the shell terminal server and Xterm answer: the ids `create` and `attach` return and the proposed geometry. */
  datatype Backend = Backend(created: Option<int>, attached: Option<int>, proposedCols: int, proposedRows: int)

  /** The state `storeState` returns and `restoreState` receives. */
  datatype StoredState = StoredState(terminalId: Option<int>, titleLabel: string)

  /**
   * The widget's fields, and logs of its calls to the server (`close`), the
   * logger and `connectTerminalProcess`; `suspended` counts the `start`
   * calls waiting in `doResize` for the terminal to be opened.
   */
  datatype Snapshot = Snapshot(
    terminalId: Option<int>,
    cols: Option<int>,
    rows: Option<int>,
    titleLabel: string,
    restored: bool,
    closeOnDispose: bool,
    isOpeningTerm: bool,
    isTermOpen: bool,
    isVisible: bool,
    closed: seq<int>,
    errors: seq<LoggedError>,
    connected: seq<int>,
    suspended: nat)

  /** What `start` passes to `logger.error`. */
  datatype LoggedError = CreateError | AttachError(id: int)

  /** The text of each logged error. */
  function Message(e: LoggedError): string {
    match e
    case CreateError => "Error creating terminal widget, see the backend error log for more information.  "
    case AttachError(id) =>
      "Error attaching to terminal id " + ShowInt(id) + ", the terminal is most likely gone. Starting up a new terminal instead.  "
  }

  /** A terminal id from the server that is usable: defined and not -1. */
  predicate Usable(id: Option<int>) {
    id.Some? && id.value != -1
  }

  /** `doResize`: take the proposed columns and one row fewer than proposed. */
  function AfterDoResize(s: Snapshot, proposedCols: int, proposedRows: int): (r: Snapshot)
    ensures r.cols == Some(proposedCols) && r.rows == Some(proposedRows - 1)
    ensures r == s.(cols := r.cols, rows := r.rows)
  {
    s.(cols := Some(proposedCols), rows := Some(proposedRows - 1))
  }

  /** `n` copies of `x`. */
  function Repeat(x: int, n: nat): (r: seq<int>)
    ensures |r| == n && forall k | 0 <= k < n :: r[k] == x
  {
    seq(n, k => x)
  }

  /**
   * `start(id)`: create a terminal (no id) or attach to one; an unusable
   * answer clears `terminalId` and is logged, and a failed attach starts a
   * new terminal instead. With a usable one, `doResize` waits for
   * `waitForTermOpened`, which only a successful `openTerm` resolves: on an
   * open terminal it resizes and connects at once, otherwise the call is
   * suspended until `AfterTermOpened`.
   */
  function AfterStart(s: Snapshot, id: Option<int>, backend: Backend): Snapshot
    decreases if id.Some? then 1 else 0
  {
    var got := if id.None? then backend.created else backend.attached;
    if !Usable(got) then
      if id.None? then s.(terminalId := None, errors := s.errors + [CreateError])
      else AfterStart(s.(terminalId := None, errors := s.errors + [AttachError(id.value)]), None, backend)
    else if !s.isTermOpen then s.(terminalId := got, suspended := s.suspended + 1)
    else
      var resized := AfterDoResize(s.(terminalId := got), backend.proposedCols, backend.proposedRows);
      resized.(connected := resized.connected + [got.value])
  }

  /**
   * Once `waitForTermOpened` has resolved (the terminal is open), each
   * suspended `start` finishes `doResize` and connects the widget's
   * `terminalId` as it is then. An undefined id is not connected:
   * `connectSocket` throws on it.
   */
  function AfterTermOpened(s: Snapshot, proposedCols: int, proposedRows: int): Snapshot {
    if !s.isTermOpen || s.suspended == 0 then s
    else
      var resized := AfterDoResize(s, proposedCols, proposedRows);
      resized.(connected := resized.connected + (if s.terminalId.Some? then Repeat(s.terminalId.value, s.suspended) else []),
               suspended := 0)
  }

  /**
   * After `start` the widget never holds -1; it holds a terminal exactly
   * when the server gave a usable id (attaching, or creating after a failed
   * attach), and then it is connected and sized if the terminal is open, or
   * left waiting for it otherwise; without a usable id nothing but the error
   * log changes.
   */
  lemma StartCases(s: Snapshot, id: Option<int>, backend: Backend)
    ensures var r := AfterStart(s, id, backend);
            && r.terminalId != Some(-1)
            && (r.terminalId.Some? <==>
                  (if id.None? then Usable(backend.created) else Usable(backend.attached) || Usable(backend.created)))
            && (r.terminalId.Some? && s.isTermOpen ==>
                  && r.connected == s.connected + [r.terminalId.value] && r.suspended == s.suspended
                  && r.cols == Some(backend.proposedCols) && r.rows == Some(backend.proposedRows - 1))
            && (r.terminalId.Some? && !s.isTermOpen ==>
                  && r.connected == s.connected && r.suspended == s.suspended + 1
                  && r.cols == s.cols && r.rows == s.rows)
            && (r.terminalId.Some? ==>
                  r.errors == s.errors + (if id.Some? && !Usable(backend.attached) then [AttachError(id.value)] else []))
            && (r.terminalId.None? ==>
                  && r.connected == s.connected && r.suspended == s.suspended && r.cols == s.cols && r.rows == s.rows
                  && r.errors == s.errors + (if id.Some? then [AttachError(id.value), CreateError] else [CreateError]))
            && r.closed == s.closed && r.restored == s.restored && r.closeOnDispose == s.closeOnDispose
            && r.isTermOpen == s.isTermOpen && r.titleLabel == s.titleLabel
  {
    if id.Some? && !Usable(backend.attached) {
      assert s.errors + [AttachError(id.value)] + [CreateError] == s.errors + [AttachError(id.value), CreateError];
    }
    if id.None? || Usable(backend.attached) {
      assert s.errors + [] == s.errors;
    }
  }

  /** `restoreState`: on the first call only, take the stored title and start with the stored id. */
  function AfterRestoreState(s: Snapshot, state: StoredState, backend: Backend): Snapshot {
    if s.restored then s
    else AfterStart(s.(restored := true, titleLabel := state.titleLabel), state.terminalId, backend)
  }

  /** A second `restoreState` changes nothing, whatever it is given. */
  lemma RestoreStateOnlyOnce(s: Snapshot, first: StoredState, second: StoredState, b1: Backend, b2: Backend)
    ensures var r := AfterRestoreState(s, first, b1);
            r.restored && AfterRestoreState(r, second, b2) == r
  {
    if !s.restored {
      StartCases(s.(restored := true, titleLabel := first.titleLabel), first.terminalId, b1);
    }
  }

  /** `storeState`: the terminal is kept alive for a later restore. */
  function AfterStoreState(s: Snapshot): (Snapshot, StoredState) {
    (s.(closeOnDispose := false), StoredState(s.terminalId, s.titleLabel))
  }

  /** `dispose`: close the server's terminal when the widget owns one and was not stored. */
  function AfterDispose(s: Snapshot): Snapshot {
    if s.closeOnDispose && s.terminalId.Some? then s.(closed := s.closed + [s.terminalId.value]) else s
  }

  /**
   * Disposing closes the backend terminal exactly when `closeOnDispose` is
   * set and a terminal id is held; after `storeState` it never does, and
   * the stored state names the terminal to reattach to.
   */
  lemma DisposeCases(s: Snapshot)
    ensures AfterDispose(s).closed == s.closed + (if s.closeOnDispose && s.terminalId.Some? then [s.terminalId.value] else [])
    ensures var (stored, state) := AfterStoreState(s);
            && AfterDispose(stored).closed == s.closed
            && state.terminalId == s.terminalId && state.titleLabel == s.titleLabel
  {
    if !(s.closeOnDispose && s.terminalId.Some?) {
      assert s.closed + [] == s.closed;
    }
  }

  /** `openTerm`: refuse when already open or not visible, clearing `isOpeningTerm`; otherwise open. */
  function AfterOpenTerm(s: Snapshot): (Snapshot, Result<()>) {
    if s.isTermOpen then (s.(isOpeningTerm := false), Failure("Already open"))
    else if !s.isVisible then (s.(isOpeningTerm := false), Failure("Not visible"))
    else (s.(isOpeningTerm := true, isTermOpen := true), Success(()))
  }

  /**
   * `openTerm` succeeds exactly on a visible widget whose terminal is not
   * open; a refusal leaves `isOpeningTerm` clear and nothing else changed;
   * once it has succeeded, every later call is refused with "Already open".
   */
  lemma OpenTermCases(s: Snapshot)
    ensures var (r, outcome) := AfterOpenTerm(s);
            && (outcome.Success? <==> !s.isTermOpen && s.isVisible)
            && (outcome.Failure? ==> !r.isOpeningTerm && r.(isOpeningTerm := s.isOpeningTerm) == s)
            && (outcome == Failure("Already open") <==> s.isTermOpen)
            && r.isTermOpen
               == (s.isTermOpen || s.isVisible)
            && (outcome.Success? ==> AfterOpenTerm(r).1 == Failure("Already open"))
  {
  }

  /**
   * A `start` made while the terminal is closed connects nothing until
   * `openTerm` succeeds; then the suspended call sizes the terminal and
   * connects the created id. While the terminal stays closed, nothing
   * resumes.
   */
  lemma StartWaitsForOpen(s: Snapshot, backend: Backend)
    requires !s.isTermOpen && s.isVisible && s.suspended == 0 && Usable(backend.created)
    ensures var started := AfterStart(s, None, backend);
            && started.connected == s.connected && started.suspended == 1
            && AfterTermOpened(started, backend.proposedCols, backend.proposedRows) == started
    ensures var resumed := AfterTermOpened(AfterOpenTerm(AfterStart(s, None, backend)).0, backend.proposedCols, backend.proposedRows);
            && resumed.connected == s.connected + [backend.created.value]
            && resumed.cols == Some(backend.proposedCols) && resumed.rows == Some(backend.proposedRows - 1)
            && resumed.suspended == 0 && resumed.terminalId == backend.created
  {
    var started := AfterStart(s, None, backend);
    assert started.terminalId == backend.created;
    assert Repeat(backend.created.value, 1) == [backend.created.value];
  }

  /**
   * `getCSSPropertiesFromPage` run by the constructor: the widget is built
   * when the page's properties are accepted, and construction throws
   * their error otherwise.
   */
  method NewTerminalWidget(titleLabel: string, props: map<string, string>) returns (r: Result<TerminalWidget>)
    ensures r.Failure? <==> CSSProperties(props).Failure?
    ensures r.Failure? ==> r.error == CSSProperties(props).error
    ensures r.Success? ==>
              && fresh(r.value) && r.value.termOptions == CSSProperties(props).value
              && r.value.Snap() == Snapshot(None, None, None, titleLabel, false, true, false, false, false, [], [], [], 0)
  {
    var cssProps := CSSProperties(props);
    if cssProps.Failure? {
      return Failure(cssProps.error);
    }
    var widget := new TerminalWidget(titleLabel, cssProps.value);
    return Success(widget);
  }

  class TerminalWidget {
    /** The font and colours the Xterm terminal was created with. */
    const termOptions: TerminalCSSProperties
    var terminalId: Option<int>
    /** Undefined until `doResize` first runs. */
    var cols: Option<int>
    var rows: Option<int>
    var titleLabel: string
    var restored: bool
    var closeOnDispose: bool
    var isOpeningTerm: bool
    var isTermOpen: bool
    /** Whether the widget is visible; the widget framework sets it. */
    var isVisible: bool
    /** The ids passed to the server's `close`. */
    var closed: seq<int>
    /** The errors passed to `logger.error`, by kind (`Message` gives the text). */
    var errors: seq<LoggedError>
    /** The ids passed to `connectTerminalProcess`. */
    var connected: seq<int>
    /** The `start` calls waiting in `doResize` for `waitForTermOpened`. */
    var suspended: nat

    function Snap(): Snapshot
      reads this
    {
      Snapshot(terminalId, cols, rows, titleLabel, restored, closeOnDispose, isOpeningTerm, isTermOpen, isVisible,
               closed, errors, connected, suspended)
    }

    /**
     * The flags start cleared, except `closeOnDispose`; the geometry is
     * undefined and the terminal takes the page's font and colours.
     */
    constructor (titleLabel: string, termOptions: TerminalCSSProperties)
      ensures Snap() == Snapshot(None, None, None, titleLabel, false, true, false, false, false, [], [], [], 0)
      ensures this.termOptions == termOptions
    {
      this.termOptions := termOptions;
      terminalId := None;
      cols := None;
      rows := None;
      this.titleLabel := titleLabel;
      restored := false;
      closeOnDispose := true;
      isOpeningTerm := false;
      isTermOpen := false;
      isVisible := false;
      closed := [];
      errors := [];
      connected := [];
      suspended := 0;
    }

    method StoreState() returns (state: StoredState)
      modifies this
      ensures (Snap(), state) == AfterStoreState(old(Snap()))
    {
      closeOnDispose := false;
      return StoredState(terminalId, titleLabel);
    }

    method RestoreState(state: StoredState, backend: Backend)
      modifies this
      ensures Snap() == AfterRestoreState(old(Snap()), state, backend)
    {
      if restored == false {
        restored := true;
        titleLabel := state.titleLabel;
        Start(state.terminalId, backend);
      }
    }

    method Start(id: Option<int>, backend: Backend)
      modifies this
      ensures Snap() == AfterStart(old(Snap()), id, backend)
      decreases if id.Some? then 1 else 0
    {
      if id.None? {
        terminalId := backend.created;
      } else {
        terminalId := backend.attached;
      }
      if terminalId == Some(-1) || terminalId.None? {
        terminalId := None;
        if id.None? {
          errors := errors + [CreateError];
        } else {
          errors := errors + [AttachError(id.value)];
          Start(None, backend);
        }
        return;
      }
      if !isTermOpen {
        suspended := suspended + 1;
        return;
      }
      DoResize(backend.proposedCols, backend.proposedRows);
      connected := connected + [terminalId.value];
    }

    /** `waitForTermOpened` has resolved: the suspended `start` calls resize and connect. */
    method TermOpened(proposedCols: int, proposedRows: int)
      modifies this
      ensures Snap() == AfterTermOpened(old(Snap()), proposedCols, proposedRows)
    {
      if isTermOpen && suspended > 0 {
        DoResize(proposedCols, proposedRows);
        if terminalId.Some? {
          connected := connected + Repeat(terminalId.value, suspended);
        }
        suspended := 0;
      }
    }

    method OpenTerm() returns (r: Result<()>)
      modifies this
      ensures (Snap(), r) == AfterOpenTerm(old(Snap()))
    {
      isOpeningTerm := true;
      if isTermOpen == true {
        isOpeningTerm := false;
        return Failure("Already open");
      }
      if isVisible == false {
        isOpeningTerm := false;
        return Failure("Not visible");
      }
      isTermOpen := true;
      return Success(());
    }

    method Dispose()
      modifies this
      ensures Snap() == AfterDispose(old(Snap()))
    {
      if closeOnDispose == true && terminalId.Some? {
        closed := closed + [terminalId.value];
      }
    }

    method DoResize(proposedCols: int, proposedRows: int)
      modifies this
      ensures Snap() == AfterDoResize(old(Snap()), proposedCols, proposedRows)
    {
      cols := Some(proposedCols);
      rows := Some(proposedRows - 1);
    }
  }
}
