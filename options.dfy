/** options.js: the options page where the user records the keyboard
    shortcut that opens the navigator. A key press becomes a shortcut
    (modifiers plus a normalised key), the shortcut is shown as text such
    as "CTRL + SHIFT + K", and the reset button is disabled while the
    default is in force. */
module Options {
  import opened Text

  /** A stored shortcut: four modifier flags and a lower-case key name. */
  datatype Shortcut = Shortcut(meta: bool, ctrl: bool, shift: bool, alt: bool, key: string)

  /** Ctrl + Shift + K. */
  const Default := Shortcut(false, true, true, false, "k")

  /** The fields of a `keydown` event that the page reads; a missing `key`
      is the empty string. */
  datatype KeyEvent = KeyEvent(key: string, metaKey: bool, ctrlKey: bool, shiftKey: bool, altKey: bool)

  /** Whatever was found in storage: JavaScript truthiness of each flag is
      already folded into a boolean, and `key` is `None` when the stored
      value is not a string. */
  datatype StoredShortcut = StoredShortcut(meta: bool, ctrl: bool, shift: bool, alt: bool, key: Option<string>)

  // ------------------------------------------------------------ key names

  /** The lookup table of `normalizeKey` for keys longer than one
      character. */
  function NamedKey(key: string): Option<string> {
    if key == "ArrowUp" then Some("arrowup")
    else if key == "ArrowDown" then Some("arrowdown")
    else if key == "ArrowLeft" then Some("arrowleft")
    else if key == "ArrowRight" then Some("arrowright")
    else if key == "Spacebar" then Some("space")
    else if key == "Escape" then Some("escape")
    else if key == "Enter" then Some("enter")
    else None
  }

  /** `normalizeKey`: empty stays empty, a single character is lower-cased
      (so a space stays a space and never reaches the table's `" "` entry),
      a named key is looked up, anything else is lower-cased. */
  function NormalizeKey(key: string): string {
    if key == "" then ""
    else if |key| == 1 then LowerStr(key)
    else match NamedKey(key)
      case Some(name) => name
      case None => LowerStr(key)
  }

  /** The display table of `formatKeyName`. */
  function KeyDisplay(key: string): Option<string> {
    if key == "arrowup" then Some("Arrow Up")
    else if key == "arrowdown" then Some("Arrow Down")
    else if key == "arrowleft" then Some("Arrow Left")
    else if key == "arrowright" then Some("Arrow Right")
    else if key == "space" then Some("Space")
    else if key == "enter" then Some("Enter")
    else None
  }

  /** `formatKeyName`: the display name, or the key itself, upper-cased. */
  function FormatKeyName(key: string): string {
    match KeyDisplay(key)
    case Some(name) => UpperStr(name)
    case None => UpperStr(key)
  }

  // ----------------------------------------------------------- shortcuts

  /** `createShortcutFromEvent`: nothing unless a modifier is held and the
      normalised key is not empty. */
  function CreateShortcut(e: KeyEvent): Option<Shortcut> {
    var key := NormalizeKey(e.key);
    if !(e.metaKey || e.ctrlKey || e.shiftKey || e.altKey) then None
    else if key == "" then None
    else Some(Shortcut(e.metaKey, e.ctrlKey, e.shiftKey, e.altKey, key))
  }

  /** The modifier labels `formatShortcut` pushes, in its order: Meta (or
      Command on a Mac), Ctrl, Alt, Shift. */
  function ModifierLabels(s: Shortcut, mac: bool): seq<string> {
    (if s.meta then [if mac then "Command" else "Meta"] else [])
    + (if s.ctrl then ["Ctrl"] else [])
    + (if s.alt then ["Alt"] else [])
    + (if s.shift then ["Shift"] else [])
  }

  /** `formatShortcut`: "" for no shortcut, otherwise the labels and the
      key name joined by " + " and upper-cased. */
  function FormatShortcut(s: Option<Shortcut>, mac: bool): string {
    match s
    case None => ""
    case Some(sc) => UpperStr(Join(ModifierLabels(sc, mac) + [FormatKeyName(sc.key)], " + "))
  }

  /** `updateShortcut`'s coercion of a stored value. */
  function Coerce(raw: StoredShortcut): Shortcut {
    Shortcut(raw.meta, raw.ctrl, raw.shift, raw.alt,
             match raw.key case Some(k) => LowerStr(k) case None => Default.key)
  }

  /** A shortcut written back to storage as it is. */
  function Store(s: Shortcut): StoredShortcut {
    StoredShortcut(s.meta, s.ctrl, s.shift, s.alt, Some(s.key))
  }

  /** `isSameShortcut`: componentwise comparison. */
  predicate IsSameShortcut(a: Shortcut, b: Shortcut) {
    a.meta == b.meta && a.ctrl == b.ctrl && a.shift == b.shift && a.alt == b.alt && a.key == b.key
  }

  // --------------------------------------------------------------- lemmas

  /** No ASCII capital letter occurs in `s`. */
  predicate NoCapitals(s: string) {
    forall i :: 0 <= i < |s| ==> !('A' <= s[i] <= 'Z')
  }

  lemma LowerHasNoCapitals(s: string)
    ensures NoCapitals(LowerStr(s))
  {
  }

  lemma NoCapitalsLower(s: string)
    requires NoCapitals(s)
    ensures LowerStr(s) == s
  {
  }

  /** Every table entry of `normalizeKey` is a lower-case word. */
  lemma NamedKeyLower(key: string)
    ensures NamedKey(key).Some? ==> |NamedKey(key).value| > 1 && NoCapitals(NamedKey(key).value)
  {
  }

  /** Every multi-character key of the table starts with a capital. */
  lemma NamedKeyCapital(key: string)
    requires NamedKey(key).Some?
    ensures |key| > 1 && 'A' <= key[0] <= 'Z'
  {
  }

  /** The normalised key is empty exactly when the key is, and it has no
      capital letter. */
  lemma NormalizeKeySpec(key: string)
    ensures NormalizeKey(key) == "" <==> key == ""
    ensures NoCapitals(NormalizeKey(key))
    ensures |key| == 1 ==> NormalizeKey(key) == LowerStr(key)
  {
    NamedKeyLower(key);
    LowerHasNoCapitals(key);
  }

  /** Normalising twice changes nothing: a normalised key is lower-case,
      and no lower-case word is a key of the table. */
  lemma NormalizeKeyIdempotent(key: string)
    ensures NormalizeKey(NormalizeKey(key)) == NormalizeKey(key)
  {
    var n := NormalizeKey(key);
    NormalizeKeySpec(key);
    NoCapitalsLower(n);
    if NamedKey(n).Some? {
      NamedKeyCapital(n);
    }
  }

  /** A shortcut exists exactly when a modifier is held and the key
      normalises to something; it carries the held modifiers and that key. */
  lemma CreateShortcutSpec(e: KeyEvent)
    ensures CreateShortcut(e).Some? <==>
      (e.metaKey || e.ctrlKey || e.shiftKey || e.altKey) && e.key != ""
    ensures CreateShortcut(e).Some? ==>
      && CreateShortcut(e).value.meta == e.metaKey && CreateShortcut(e).value.ctrl == e.ctrlKey
      && CreateShortcut(e).value.shift == e.shiftKey && CreateShortcut(e).value.alt == e.altKey
      && CreateShortcut(e).value.key == NormalizeKey(e.key)
  {
    NormalizeKeySpec(e.key);
  }

  /** A recorded shortcut survives the save and reload: coercing what was
      stored gives it back unchanged. */
  lemma CreatedIsStable(e: KeyEvent)
    requires CreateShortcut(e).Some?
    ensures Coerce(Store(CreateShortcut(e).value)) == CreateShortcut(e).value
  {
    NormalizeKeySpec(e.key);
    NoCapitalsLower(NormalizeKey(e.key));
  }

  /** Coercion is idempotent. */
  lemma CoerceIdempotent(raw: StoredShortcut)
    ensures Coerce(Store(Coerce(raw))) == Coerce(raw)
  {
    if raw.key.Some? {
      LowerIdempotent(raw.key.value);
    }
  }

  /** `isSameShortcut` is equality. */
  lemma IsSameIsEquality(a: Shortcut, b: Shortcut)
    ensures IsSameShortcut(a, b) <==> a == b
  {
  }

  /** A modifier label is shown exactly when its modifier is held, and
      there is one label per held modifier. */
  lemma ModifierLabelsSpec(s: Shortcut, mac: bool)
    ensures "Ctrl" in ModifierLabels(s, mac) <==> s.ctrl
    ensures "Alt" in ModifierLabels(s, mac) <==> s.alt
    ensures "Shift" in ModifierLabels(s, mac) <==> s.shift
    ensures (if mac then "Command" else "Meta") in ModifierLabels(s, mac) <==> s.meta
    ensures |ModifierLabels(s, mac)| ==
      (if s.meta then 1 else 0) + (if s.ctrl then 1 else 0) + (if s.alt then 1 else 0) + (if s.shift then 1 else 0)
  {
  }

  lemma UpperIdempotent(s: string)
    ensures UpperStr(UpperStr(s)) == UpperStr(s)
  {
    assert forall i :: 0 <= i < |s| ==> Upper(Upper(s[i])) == Upper(s[i]);
  }

  lemma JoinNonEmpty(parts: seq<string>, sep: string)
    requires |parts| >= 2 && |sep| > 0
    ensures |Join(parts, sep)| > 0
  {
    JoinSnoc(parts, sep);
  }

  /** The text is upper-case, and it is empty only when there is no
      shortcut, or no modifier and an empty key. */
  lemma FormatShortcutSpec(s: Option<Shortcut>, mac: bool)
    ensures UpperStr(FormatShortcut(s, mac)) == FormatShortcut(s, mac)
    ensures FormatShortcut(s, mac) == "" <==>
      s.None? || (!s.value.meta && !s.value.ctrl && !s.value.alt && !s.value.shift && s.value.key == "")
  {
    if s.Some? {
      var sc := s.value;
      var parts := ModifierLabels(sc, mac) + [FormatKeyName(sc.key)];
      UpperIdempotent(Join(parts, " + "));
      ModifierLabelsSpec(sc, mac);
      if |parts| >= 2 {
        JoinNonEmpty(parts, " + ");
      } else {
        assert Join(parts, " + ") == FormatKeyName(sc.key);
        assert FormatKeyName(sc.key) == "" <==> sc.key == "";
      }
    }
  }

  // ----------------------------------------------------------- the page

  /** The options page: the shortcut in force, the text of the shortcut
      field, the state of the reset button, the status line and the value
      in extension storage. */
  class OptionsPage {
    var currentShortcut: Option<Shortcut>
    var inputValue: string
    var resetDisabled: bool
    var statusText: string
    var stored: Option<StoredShortcut>
    /** `navigator.platform.includes("Mac")`. */
    const mac: bool

    /** The page state once a shortcut has been applied. */
    predicate Shows(s: Shortcut)
      reads this
    {
      && currentShortcut == Some(s)
      && inputValue == FormatShortcut(Some(s), mac)
      && resetDisabled == (s == Default)
    }

    /** `init` and `loadShortcut`: the stored value, or the default when
        there is none, is applied. */
    constructor(mac: bool, stored: Option<StoredShortcut>)
      ensures this.mac == mac && this.stored == stored && statusText == ""
      ensures Shows(Coerce(match stored case Some(raw) => raw case None => Store(Default)))
    {
      this.mac := mac;
      this.stored := stored;
      statusText := "";
      var raw := match stored case Some(raw) => raw case None => Store(Default);
      var s := Coerce(raw);
      currentShortcut := Some(s);
      inputValue := FormatShortcut(Some(s), mac);
      IsSameIsEquality(s, Default);
      resetDisabled := IsSameShortcut(s, Default);
    }

    /** `updateShortcut`: coerce, show, and disable reset exactly when the
        result is the default. */
    method UpdateShortcut(raw: StoredShortcut)
      modifies this`currentShortcut, this`inputValue, this`resetDisabled
      ensures Shows(Coerce(raw))
    {
      var s := Coerce(raw);
      currentShortcut := Some(s);
      inputValue := FormatShortcut(Some(s), mac);
      IsSameIsEquality(s, Default);
      resetDisabled := IsSameShortcut(s, Default);
    }

    /** `handleShortcutKeydown`: Tab and Escape change nothing; a press
        without a modifier or key only sets the status line; otherwise
        the shortcut is saved and shown. */
    method HandleShortcutKeydown(e: KeyEvent)
      modifies this
      ensures e.key == "Tab" || e.key == "Escape" ==>
        currentShortcut == old(currentShortcut) && inputValue == old(inputValue)
        && resetDisabled == old(resetDisabled) && statusText == old(statusText) && stored == old(stored)
      ensures e.key != "Tab" && e.key != "Escape" && CreateShortcut(e).None? ==>
        currentShortcut == old(currentShortcut) && inputValue == old(inputValue)
        && resetDisabled == old(resetDisabled) && stored == old(stored)
        && statusText == "Selecciona al menos un modificador (Ctrl, Alt, Shift o Command)."
      ensures e.key != "Tab" && e.key != "Escape" && CreateShortcut(e).Some? ==>
        && stored == Some(Store(CreateShortcut(e).value))
        && Shows(CreateShortcut(e).value)
        && statusText == "Atajo guardado."
    {
      if e.key == "Tab" || e.key == "Escape" {
        return;
      }
      var shortcut := CreateShortcut(e);
      if shortcut.None? {
        statusText := "Selecciona al menos un modificador (Ctrl, Alt, Shift o Command).";
        return;
      }
      stored := Some(Store(shortcut.value));
      CreatedIsStable(e);
      UpdateShortcut(Store(shortcut.value));
      statusText := "Atajo guardado.";
    }

    /** The reset button: the default is saved and shown, and the button
        becomes disabled. */
    method Reset()
      modifies this`currentShortcut, this`inputValue, this`resetDisabled, this`statusText, this`stored
      ensures stored == Some(Store(Default)) && Shows(Default) && resetDisabled
      ensures statusText == "Atajo restablecido."
    {
      stored := Some(Store(Default));
      assert Coerce(Store(Default)) == Default by {
        NoCapitalsLower(Default.key);
      }
      UpdateShortcut(Store(Default));
      statusText := "Atajo restablecido.";
    }
  }
}
