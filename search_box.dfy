/**
 * The navigator's type-ahead search box (packages/navigator/src/browser/search-box.ts).
 *
 * Key events arrive already converted to key codes. `Key.equals` is taken
 * to compare the key codes of a present key, and `Key.getEasyKey(key)` is
 * represented by the key's `easyString` field. The widget's `hide` is taken
 * to run `onBeforeHide` when the box is visible and to do nothing when it
 * is already hidden.
 */
module SearchBox {
  import opened Wrappers
  import opened NavigatorSearch

  /** A key: its key code and the string `Key.getEasyKey` gives for it. */
  datatype Key = Key(keyCode: int, easyString: string)

  /** A key code: the key, when one was recognised, and the modifiers held. */
  datatype KeyCode = KeyCode(key: Option<Key>, ctrl: bool, alt: bool, meta: bool)

  const EscapeCode: int := 27
  const BackspaceCode: int := 8

  /** `Key.equals(key, keyCode)` for a key with code `code`. */
  predicate KeyEquals(code: int, keyCode: KeyCode) {
    keyCode.key.Some? && keyCode.key.value.keyCode == code
  }

  /** `SPECIAL_KEYS.some(...)`: Escape or Backspace. */
  predicate IsSpecialKey(keyCode: KeyCode) {
    KeyEquals(EscapeCode, keyCode) || KeyEquals(BackspaceCode, keyCode)
  }

  /** `isPrintableChar`: digits, letters, numpad keys and the two punctuation blocks. */
  predicate IsPrintableChar(input: KeyCode) {
    if input.key.Some? then
      var keyCode := input.key.value.keyCode;
      || (keyCode > 47 && keyCode < 58)
      || (keyCode > 64 && keyCode < 91)
      || (keyCode > 95 && keyCode < 112)
      || (keyCode > 185 && keyCode < 193)
      || (keyCode > 218 && keyCode < 223)
    else false
  }

  /** `canHandle`: no modifier held, and a printable key or (while visible) Escape or Backspace. */
  predicate CanHandle(keyCode: Option<KeyCode>, isVisible: bool) {
    if keyCode.None? then false
    else if keyCode.value.ctrl || keyCode.value.alt || keyCode.value.meta then false
    else IsPrintableChar(keyCode.value) || (isVisible && IsSpecialKey(keyCode.value))
  }

  /** What `handleKey` appends to the throttle: `'\b'` for Backspace, the easy string otherwise. */
  function Character(keyCode: KeyCode): (r: string)
    requires keyCode.key.Some?
    ensures KeyEquals(BackspaceCode, keyCode) ==> r == BackspaceInput
    ensures !KeyEquals(BackspaceCode, keyCode) ==> r == keyCode.key.value.easyString
  {
    if KeyEquals(BackspaceCode, keyCode) then BackspaceInput else keyCode.key.value.easyString
  }

  /** The printable keys are exactly the codes 48-57, 65-90, 96-111, 186-192 and 219-222. */
  lemma PrintableCodes(input: KeyCode)
    ensures IsPrintableChar(input) <==>
              input.key.Some? &&
              var c := input.key.value.keyCode;
              (48 <= c <= 57 || 65 <= c <= 90 || 96 <= c <= 111 || 186 <= c <= 192 || 219 <= c <= 222)
  {
  }

  /** Escape and Backspace are not printable, so they are handled only while the box is visible. */
  lemma SpecialKeysNeedVisibility(keyCode: KeyCode)
    requires IsSpecialKey(keyCode)
    ensures !IsPrintableChar(keyCode)
    ensures !CanHandle(Some(keyCode), false)
    ensures CanHandle(Some(keyCode), true) <==> !keyCode.ctrl && !keyCode.alt && !keyCode.meta
  {
  }

  /** Which key codes the box takes: never with a modifier, printable keys whatever the visibility. */
  lemma CanHandleCases(keyCode: Option<KeyCode>, isVisible: bool)
    ensures keyCode.None? ==> !CanHandle(keyCode, isVisible)
    ensures keyCode.Some? && (keyCode.value.ctrl || keyCode.value.alt || keyCode.value.meta) ==> !CanHandle(keyCode, isVisible)
    ensures keyCode.Some? && !keyCode.value.ctrl && !keyCode.value.alt && !keyCode.value.meta && IsPrintableChar(keyCode.value) ==>
              CanHandle(keyCode, true) && CanHandle(keyCode, false)
    ensures CanHandle(keyCode, isVisible) ==> keyCode.Some? && keyCode.value.key.Some?
  {
  }

  class Widget {
    /** Whether the box is shown. */
    var visible: bool
    /** The text of the read-only input element. */
    var inputValue: string
    /** How often `update` re-rendered the box after a text change. */
    var updates: nat
    /** How often `onClose` listeners were notified. */
    var closeEvents: nat
    const throttle: Throttle

    ghost predicate Valid()
      reads this, throttle
    {
      throttle.Valid()
    }

    /** The constructor hides the box before it is attached, so no close event is fired. */
    constructor (throttle: Throttle)
      requires throttle.Valid()
      ensures Valid() && this.throttle == throttle
      ensures !visible && inputValue == "" && updates == 0 && closeEvents == 0
    {
      this.throttle := throttle;
      visible := false;
      inputValue := "";
      updates := 0;
      closeEvents := 0;
    }

    /** `onBeforeHide`: reset the throttle, then notify close listeners. */
    method OnBeforeHide()
      requires Valid()
      modifies this, throttle
      ensures Valid()
      ensures throttle.state == None && throttle.timer == None
      ensures throttle.fired == old(throttle.fired) + [None]
      ensures closeEvents == old(closeEvents) + 1
      ensures visible == old(visible) && inputValue == old(inputValue) && updates == old(updates)
    {
      var _ := throttle.Append(None);
      closeEvents := closeEvents + 1;
    }

    /** `hide`: a visible box runs `onBeforeHide` and becomes hidden; a hidden box stays as it is. */
    method Hide()
      requires Valid()
      modifies this, throttle
      ensures Valid()
      ensures !visible
      ensures old(visible) ==> throttle.state == None && throttle.timer == None
                               && throttle.fired == old(throttle.fired) + [None] && closeEvents == old(closeEvents) + 1
      ensures !old(visible) ==> throttle.state == old(throttle.state) && throttle.timer == old(throttle.timer)
                                && throttle.fired == old(throttle.fired) && closeEvents == old(closeEvents)
      ensures inputValue == old(inputValue) && updates == old(updates)
    {
      if visible {
        OnBeforeHide();
        visible := false;
      }
    }

    /** `show`. */
    method Show()
      modifies this
      ensures visible
      ensures inputValue == old(inputValue) && updates == old(updates) && closeEvents == old(closeEvents)
    {
      visible := true;
    }

    /**
     * `handleKey`: send the key's character to the throttle; a non-empty
     * term becomes the input text, an empty or undefined one hides the box.
     */
    method HandleKey(keyCode: KeyCode)
      requires Valid()
      modifies this, throttle
      ensures Valid()
      ensures keyCode.key.None? ==>
                && visible == old(visible) && inputValue == old(inputValue) && updates == old(updates)
                && closeEvents == old(closeEvents) && throttle.state == old(throttle.state)
      ensures keyCode.key.Some? && NextState(old(throttle.state), Character(keyCode)) != "" ==>
                && inputValue == NextState(old(throttle.state), Character(keyCode))
                && throttle.state == Some(inputValue) && throttle.timer.Some?
                && updates == old(updates) + 1 && visible == old(visible) && closeEvents == old(closeEvents)
      ensures keyCode.key.Some? && NextState(old(throttle.state), Character(keyCode)) == "" ==>
                && !visible && inputValue == old(inputValue) && updates == old(updates)
                && (old(visible) ==> throttle.state == None && closeEvents == old(closeEvents) + 1)
                && (!old(visible) ==> throttle.state == Some("") && closeEvents == old(closeEvents))
    {
      if keyCode.key.Some? {
        var character := if KeyEquals(BackspaceCode, keyCode) then BackspaceInput else keyCode.key.value.easyString;
        var data := throttle.Append(Some(character));
        if data.Some? && data.value != "" {
          inputValue := data.value;
          updates := updates + 1;
        } else {
          Hide();
        }
      }
    }

    /**
     * `handle`: keys the box cannot handle are ignored; a handled Escape
     * hides the box; any other handled key shows it and is passed on.
     */
    method Handle(keyCode: KeyCode)
      requires Valid()
      modifies this, throttle
      ensures Valid()
      ensures !CanHandle(Some(keyCode), old(visible)) ==>
                && visible == old(visible) && inputValue == old(inputValue) && updates == old(updates)
                && closeEvents == old(closeEvents) && throttle.state == old(throttle.state)
                && throttle.fired == old(throttle.fired)
      ensures CanHandle(Some(keyCode), old(visible)) && KeyEquals(EscapeCode, keyCode) ==>
                && !visible && throttle.state == None && closeEvents == old(closeEvents) + 1
                && inputValue == old(inputValue)
      ensures CanHandle(Some(keyCode), old(visible)) && !KeyEquals(EscapeCode, keyCode) ==>
                var term := NextState(old(throttle.state), Character(keyCode));
                && (term != "" ==> visible && inputValue == term && throttle.state == Some(term))
                && (term == "" ==> !visible && throttle.state == None && closeEvents == old(closeEvents) + 1)
    {
      if CanHandle(Some(keyCode), visible) {
        if KeyEquals(EscapeCode, keyCode) {
          SpecialKeysNeedVisibility(keyCode);
          Hide();
        } else {
          Show();
          HandleKey(keyCode);
        }
      }
    }
  }
}
