/**
 * The theme provider: a light/dark mode and a colour theme, kept compatible
 * (no black colour in light mode, no white colour in dark mode), reflected
 * on the document root and persisted to local storage.
 *
 * The document root is its class set and its `data-color-theme` attribute;
 * local storage is its two saved entries; the system preference is an input.
 */
module ThemeProvider {
  import opened Wrappers

  datatype Mode = Light | Dark
  datatype ColorTheme = Blue | Green | Purple | Orange | Red | Black | White

  /** The class name a mode puts on the document root. */
  function ModeClass(m: Mode): string
  {
    match m
    case Light => "light"
    case Dark => "dark"
  }

  /** A colour may be shown in a mode unless it is black in light mode or white in dark mode. */
  predicate Compatible(m: Mode, c: ColorTheme)
  {
    !(c == Black && m == Light) && !(c == White && m == Dark)
  }

  /** The apply effect's coercion: an incompatible colour becomes blue. */
  function Coerced(m: Mode, c: ColorTheme): (r: ColorTheme)
    ensures Compatible(m, r)
    ensures Compatible(m, c) ==> r == c
    ensures !Compatible(m, c) ==> r == Blue
  {
    if c == Black && m == Light then Blue
    else if c == White && m == Dark then Blue
    else c
  }

  /** Coercion is idempotent: a coerced colour is left alone. */
  lemma CoercedIdempotent(m: Mode, c: ColorTheme)
    ensures Coerced(m, Coerced(m, c)) == Coerced(m, c)
  {
  }

  function Flipped(m: Mode): (r: Mode)
    ensures r != m
  {
    if m == Light then Dark else Light
  }

  /** The colour `toggleTheme` chooses for the mode it switches to. */
  function ToggleColor(newTheme: Mode, c: ColorTheme): ColorTheme
  {
    if newTheme == Dark && c == White then Blue
    else if newTheme == Light && c == Black then Blue
    else c
  }

  /** The toggle's colour rule is the apply effect's coercion, for the target mode. */
  lemma ToggleColorIsCoerced(newTheme: Mode, c: ColorTheme)
    ensures ToggleColor(newTheme, c) == Coerced(newTheme, c)
  {
  }

  class Provider {
    var theme: Mode
    var colorTheme: ColorTheme
    /** The document root's class list. */
    var rootClasses: set<string>
    /** The document root's `data-color-theme` attribute. */
    var dataColorTheme: Option<ColorTheme>
    /** The saved `theme` and `colorTheme` entries of local storage. */
    var savedTheme: Option<Mode>
    var savedColorTheme: Option<ColorTheme>

    /** Before mounting: light mode with the blue colour, over the given page and storage. */
    constructor (rootClasses: set<string>, dataColorTheme: Option<ColorTheme>,
                 savedTheme: Option<Mode>, savedColorTheme: Option<ColorTheme>)
      ensures theme == Light && colorTheme == Blue
      ensures this.rootClasses == rootClasses && this.dataColorTheme == dataColorTheme
      ensures this.savedTheme == savedTheme && this.savedColorTheme == savedColorTheme
    {
      theme := Light;
      colorTheme := Blue;
      this.rootClasses := rootClasses;
      this.dataColorTheme := dataColorTheme;
      this.savedTheme := savedTheme;
      this.savedColorTheme := savedColorTheme;
    }

    /** The mount effect: a saved mode wins over the system preference; a saved colour is used if present. */
    method Load(systemPrefersDark: bool)
      modifies this
      ensures theme == (if old(savedTheme).Some? then old(savedTheme).value
                        else if systemPrefersDark then Dark else Light)
      ensures colorTheme == old(savedColorTheme).GetOr(old(colorTheme))
      ensures rootClasses == old(rootClasses) && dataColorTheme == old(dataColorTheme)
      ensures savedTheme == old(savedTheme) && savedColorTheme == old(savedColorTheme)
    {
      if savedTheme.Some? {
        theme := savedTheme.value;
      } else {
        theme := if systemPrefersDark then Dark else Light;
      }
      if savedColorTheme.Some? {
        colorTheme := savedColorTheme.value;
      }
    }

    /**
     * The apply effect: mark the root with the mode, coerce an incompatible
     * colour to blue, set the attribute to the coerced colour, and persist
     * the mode and the colour the effect started with.
     */
    method Apply()
      modifies this
      ensures theme == old(theme)
      ensures rootClasses == old(rootClasses) - {"light", "dark"} + {ModeClass(theme)}
      ensures rootClasses * {"light", "dark"} == {ModeClass(theme)}
      ensures colorTheme == Coerced(theme, old(colorTheme))
      ensures Compatible(theme, colorTheme)
      ensures Compatible(theme, old(colorTheme)) ==> colorTheme == old(colorTheme)
      ensures dataColorTheme == Some(colorTheme)
      ensures savedTheme == Some(theme) && savedColorTheme == Some(old(colorTheme))
    {
      var rendered := colorTheme;
      rootClasses := rootClasses - {"light", "dark"} + {ModeClass(theme)};
      dataColorTheme := Some(colorTheme);
      if colorTheme == Black && theme == Light {
        colorTheme := Blue;
        dataColorTheme := Some(Blue);
      } else if colorTheme == White && theme == Dark {
        colorTheme := Blue;
        dataColorTheme := Some(Blue);
      } else {
        dataColorTheme := Some(colorTheme);
      }
      savedTheme := Some(theme);
      savedColorTheme := Some(rendered);
    }

    /** `toggleTheme()`: flip the mode, switching an incompatible colour to blue first. */
    method ToggleTheme()
      modifies this
      ensures theme == Flipped(old(theme))
      ensures colorTheme == ToggleColor(theme, old(colorTheme))
      ensures Compatible(theme, colorTheme)
      ensures rootClasses == old(rootClasses) && dataColorTheme == old(dataColorTheme)
      ensures savedTheme == old(savedTheme) && savedColorTheme == old(savedColorTheme)
    {
      var newTheme := Flipped(theme);
      if newTheme == Dark && colorTheme == White {
        colorTheme := Blue;
      } else if newTheme == Light && colorTheme == Black {
        colorTheme := Blue;
      }
      theme := newTheme;
    }

    /** `setColorTheme(c)` from the context. */
    method SetColorTheme(c: ColorTheme)
      modifies this
      ensures colorTheme == c && theme == old(theme)
      ensures rootClasses == old(rootClasses) && dataColorTheme == old(dataColorTheme)
      ensures savedTheme == old(savedTheme) && savedColorTheme == old(savedColorTheme)
    {
      colorTheme := c;
    }

    /** `setTheme(m)` from the context. */
    method SetTheme(m: Mode)
      modifies this
      ensures theme == m && colorTheme == old(colorTheme)
      ensures rootClasses == old(rootClasses) && dataColorTheme == old(dataColorTheme)
      ensures savedTheme == old(savedTheme) && savedColorTheme == old(savedColorTheme)
    {
      theme := m;
    }
  }

  /**
   * The provider as a client uses it: after the mount effect reruns the apply
   * effect until nothing changes, the state is compatible and stored as shown.
   */
  method MountAndApply(p: Provider, systemPrefersDark: bool)
    modifies p
    ensures Compatible(p.theme, p.colorTheme)
    ensures p.dataColorTheme == Some(p.colorTheme)
    ensures p.savedTheme == Some(p.theme) && p.savedColorTheme == Some(p.colorTheme)
    ensures p.rootClasses * {"light", "dark"} == {ModeClass(p.theme)}
  {
    p.Load(systemPrefersDark);
    p.Apply();
    p.Apply();
  }
}
