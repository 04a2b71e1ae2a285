/**
 * The display settings of app.py: one colour and a dark-mode switch, the
 * hex colour check of the `/settings` route and `update_settings`.
 */
module Settings {
  import opened Wrappers
  import opened Text
  import opened BookForms

  /** The characters the colour check accepts after the `#`. */
  const HexDigits: string := "0123456789" + "ABCDEF" + "abcdef"

  /** `color.startswith('#') and len(color) == 7 and all(c in HexDigits for c in color[1:])`. */
  predicate IsValidColor(color: string) {
    |color| > 0 && color[0] == '#' && |color| == 7 && forall i :: 1 <= i < |color| ==> color[i] in HexDigits
  }

  /** A hex digit is a decimal digit or a letter from A to F in either case. */
  lemma HexDigitRanges(ch: char)
    ensures ch in HexDigits <==> ('0' <= ch <= '9') || ('A' <= ch <= 'F') || ('a' <= ch <= 'f')
  {
    assert HexDigits == "0123456789ABCDEFabcdef";
    if ch in HexDigits {
      var i :| 0 <= i < |HexDigits| && HexDigits[i] == ch;
    }
  }

  /** A valid colour is `#` followed by exactly six hex digits. */
  lemma ValidColorIsHashAndSixDigits(color: string)
    ensures IsValidColor(color) <==>
              exists digits: string :: |digits| == 6 && color == "#" + digits &&
                                       forall i :: 0 <= i < 6 ==> ('0' <= digits[i] <= '9') || ('A' <= digits[i] <= 'F') || ('a' <= digits[i] <= 'f')
  {
    if IsValidColor(color) {
      var digits := color[1..];
      assert color == "#" + digits;
      forall i | 0 <= i < 6
        ensures ('0' <= digits[i] <= '9') || ('A' <= digits[i] <= 'F') || ('a' <= digits[i] <= 'f')
      {
        assert digits[i] == color[i + 1];
        HexDigitRanges(color[i + 1]);
      }
    }
    if exists digits: string :: |digits| == 6 && color == "#" + digits &&
                                forall i :: 0 <= i < 6 ==> ('0' <= digits[i] <= '9') || ('A' <= digits[i] <= 'F') || ('a' <= digits[i] <= 'f') {
      var digits: string :| |digits| == 6 && color == "#" + digits &&
                            forall i :: 0 <= i < 6 ==> ('0' <= digits[i] <= '9') || ('A' <= digits[i] <= 'F') || ('a' <= digits[i] <= 'f');
      forall i | 1 <= i < |color| ensures color[i] in HexDigits {
        assert color[i] == digits[i - 1];
        HexDigitRanges(color[i]);
      }
    }
  }

  /** The colour a fresh database starts with passes the check; a shorter or unmarked one does not. */
  lemma ColorExamples()
    ensures IsValidColor("#15d49b")
    ensures !IsValidColor("#15d49") && !IsValidColor("15d49b0") && !IsValidColor("#15d49g")
  {
    HexDigitRanges('1');
    HexDigitRanges('5');
    HexDigitRanges('d');
    HexDigitRanges('4');
    HexDigitRanges('9');
    HexDigitRanges('b');
    HexDigitRanges('g');
    assert "#15d49g"[6] == 'g';
  }

  /** The stored settings: the row `id = 1` of the `settings` table. */
  datatype Prefs = Prefs(color: string, darkMode: bool)

  /**
   * `update_settings(color, dark_mode)`: the colour is written only when it is
   * given and not empty, the dark mode only when it is not `None`.
   */
  function UpdatedPrefs(p: Prefs, color: Option<string>, darkMode: Option<bool>): Prefs {
    Prefs(if color.Some? && color.value != "" then color.value else p.color,
          if darkMode.Some? then darkMode.value else p.darkMode)
  }

  /** Without a value to write, `update_settings` changes nothing. */
  lemma UpdateWithoutValues(p: Prefs)
    ensures UpdatedPrefs(p, None, None) == p && UpdatedPrefs(p, Some(""), None) == p
  {
  }

  /** Writing the same values twice is writing them once. */
  lemma UpdateIdempotent(p: Prefs, color: Option<string>, darkMode: Option<bool>)
    ensures UpdatedPrefs(UpdatedPrefs(p, color, darkMode), color, darkMode) == UpdatedPrefs(p, color, darkMode)
  {
  }

  /** The two settings are written independently of each other. */
  lemma UpdatesCommute(p: Prefs, color: Option<string>, darkMode: Option<bool>)
    ensures UpdatedPrefs(UpdatedPrefs(p, color, None), None, darkMode) == UpdatedPrefs(p, color, darkMode)
    ensures UpdatedPrefs(UpdatedPrefs(p, None, darkMode), color, None) == UpdatedPrefs(p, color, darkMode)
  {
  }

  /** What the `/settings` route reports. */
  datatype SettingsOutcome = Shown | Saved | InvalidColor

  /**
   * The `/settings` route: a post with a `color` field saves the stripped
   * colour and whether `dark_mode` was ticked when the colour is valid, and
   * changes nothing otherwise.
   */
  function SettingsRoute(p: Prefs, post: bool, form: Form): (Prefs, SettingsOutcome) {
    if !post || "color" !in form then (p, Shown)
    else
      var color := Strip(form["color"]);
      if IsValidColor(color) then (UpdatedPrefs(p, Some(color), Some("dark_mode" in form)), Saved)
      else (p, InvalidColor)
  }

  /** A rejected colour leaves both settings as they were. */
  lemma RejectedColorChangesNothing(p: Prefs, post: bool, form: Form)
    requires SettingsRoute(p, post, form).1 != Saved
    ensures SettingsRoute(p, post, form).0 == p
  {
  }

  /** The route saves exactly when it is posted a valid colour, and then stores that colour and the tick box. */
  lemma SettingsRouteSaves(p: Prefs, post: bool, form: Form)
    ensures SettingsRoute(p, post, form).1 == Saved <==> post && "color" in form && IsValidColor(Strip(form["color"]))
    ensures SettingsRoute(p, post, form).1 == Saved ==>
              SettingsRoute(p, post, form).0 == Prefs(Strip(form["color"]), "dark_mode" in form)
  {
    if post && "color" in form && IsValidColor(Strip(form["color"])) {
      assert Strip(form["color"]) != "";
    }
  }

  /** The settings row, which the application reads and updates in place. */
  class SettingsStore {
    var color: string
    var darkMode: bool

    function Current(): Prefs
      reads this
    {
      Prefs(color, darkMode)
    }

    /** The row `init_db` inserts into an empty `settings` table. */
    constructor ()
      ensures Current() == Prefs("#15d49b", false)
    {
      color := "#15d49b";
      darkMode := false;
    }

    /** `update_settings` of app.py. */
    method Update(newColor: Option<string>, newDarkMode: Option<bool>)
      modifies this
      ensures Current() == UpdatedPrefs(old(Current()), newColor, newDarkMode)
    {
      if newColor.Some? && newColor.value != "" {
        color := newColor.value;
      }
      if newDarkMode.Some? {
        darkMode := newDarkMode.value;
      }
    }

    /** The `/settings` route of app.py. */
    method Post(post: bool, form: Form) returns (outcome: SettingsOutcome)
      modifies this
      ensures (Current(), outcome) == SettingsRoute(old(Current()), post, form)
    {
      if !post || "color" !in form {
        return Shown;
      }
      var newColor := Strip(form["color"]);
      var ticked := "dark_mode" in form;
      if |newColor| > 0 && newColor[0] == '#' && |newColor| == 7 && forall i :: 1 <= i < |newColor| ==> newColor[i] in HexDigits {
        Update(Some(newColor), Some(ticked));
        return Saved;
      }
      return InvalidColor;
    }
  }
}
