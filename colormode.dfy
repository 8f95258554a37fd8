/**
 * The colour-mode context (lib/system/colorMode/color-mode.tsx): a provider
 * that holds the light/dark mode and toggles it, a controlled variant that
 * reports a fixed mode, and the value chosen by the current mode. The
 * persisted state hook behind the provider is not part of this model; the
 * provider's state is its own field, started from the default mode.
 */
module ColorMode {
  import opened Js

  datatype Mode = Light | Dark

  /** What a toggle of the context does. */
  datatype Toggle = NoOp | Flips

  datatype ColorModeContext = ColorModeContext(colorMode: Mode, toggle: Toggle)

  /** The context seen without any provider. */
  const DefaultContext: ColorModeContext := ColorModeContext(Light, NoOp)

  function Flip(m: Mode): (r: Mode)
    ensures r != m
  {
    if m == Light then Dark else Light
  }

  lemma FlipTwice(m: Mode)
    ensures Flip(Flip(m)) == m
  {
  }

  /** getColorModeValue(light, dark)(mode) */
  function GetColorModeValue<T>(light: T, dark: T, mode: Mode): (r: T)
    ensures mode == Light ==> r == light
    ensures mode == Dark ==> r == dark
  {
    if mode == Light then light else dark
  }

  /** <DarkMode> and <LightMode>: a fixed mode that cannot be toggled. */
  function DarkModeContext(): (c: ColorModeContext)
    ensures c.colorMode == Dark && c.toggle == NoOp
  {
    ColorModeContext(Dark, NoOp)
  }

  function LightModeContext(): (c: ColorModeContext)
    ensures c.colorMode == Light && c.toggle == NoOp
  {
    ColorModeContext(Light, NoOp)
  }

  /** Applying a context's toggle to the provider state. */
  function ApplyToggle(c: ColorModeContext, state: Mode): (r: Mode)
    ensures c.toggle == NoOp ==> r == state
    ensures c.toggle == Flips ==> r == Flip(c.colorMode)
  {
    if c.toggle == NoOp then state else Flip(c.colorMode)
  }

  /** <ColorModeProvider value? defaultValue?> */
  class ColorModeProvider {
    /** The controlled `value` prop. */
    const value: Option<Mode>
    /** The mode the state hook holds. */
    var colorMode: Mode

    constructor (value: Option<Mode>, defaultValue: Mode)
      ensures this.value == value && colorMode == defaultValue
    {
      this.value := value;
      colorMode := defaultValue;
    }

    /** The context value the provider renders. */
    function Context(): (c: ColorModeContext)
      reads this
      ensures value.Some? ==> c == ColorModeContext(value.value, NoOp)
      ensures value.None? ==> c == ColorModeContext(colorMode, Flips)
    {
      match value
      case Some(m) => ColorModeContext(m, NoOp)
      case None => ColorModeContext(colorMode, Flips)
    }

    /** A consumer calls toggleColorMode from the last render's context. */
    method ToggleColorMode()
      modifies this
      ensures colorMode == ApplyToggle(old(Context()), old(colorMode))
      ensures value.None? ==> colorMode == Flip(old(colorMode)) && Context().colorMode != old(Context()).colorMode
      ensures value.Some? ==> colorMode == old(colorMode) && Context() == old(Context())
    {
      var c := Context();
      if c.toggle == Flips {
        colorMode := if c.colorMode == Light then Dark else Light;
      }
    }
  }

  /** Toggling twice restores the mode, controlled or not. */
  method ToggleTwice(p: ColorModeProvider)
    modifies p
    ensures p.colorMode == old(p.colorMode) && p.Context() == old(p.Context())
  {
    p.ToggleColorMode();
    p.ToggleColorMode();
  }
}
