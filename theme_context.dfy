/** The theme context: one process-wide cell holding the selected colour
    scheme, created by the provider with the value `blue`, replaced by its
    setter, and handed out by `useTheme`, which refuses to work outside a
    provider. */
module ThemeContext {
  import opened Prelude

  /** The closed set of colour schemes. */
  datatype Theme = Blue | Purple | Green | Orange

  const UseThemeError: string := "useTheme must be used within a ThemeProvider"

  /** The provider's state cell and its setter. */
  class ThemeProvider {
    var theme: Theme

    /** A fresh provider starts on the default scheme. */
    constructor ()
      ensures theme == Blue
    {
      theme := Blue;
    }

    /** Replaces the stored scheme; every later read sees the new value. */
    method SetTheme(t: Theme)
      modifies this
      ensures theme == t
    {
      theme := t;
    }
  }

  /** Setting the same scheme twice leaves the same state as setting it once. */
  method SetThemeTwice(p: ThemeProvider, t: Theme)
    modifies p
    ensures p.theme == t
  {
    p.SetTheme(t);
    var once := p.theme;
    p.SetTheme(t);
    assert p.theme == once;
  }

  /** useTheme: the enclosing provider when there is one, the error otherwise. */
  function UseTheme(context: Option<ThemeProvider>): (r: Result<ThemeProvider, string>)
    ensures r.Failure? <==> context.None?
    ensures r.Success? ==> r.value == context.value
    ensures r.Failure? ==> r.error == UseThemeError
  {
    match context
    case None => Failure(UseThemeError)
    case Some(p) => Success(p)
  }

  /** What a consumer component reads: the current scheme of the enclosing
      provider, or the guard's error when it is rendered outside one. */
  method CurrentTheme(context: Option<ThemeProvider>) returns (r: Result<Theme, string>)
    ensures context.None? ==> r == Failure(UseThemeError)
    ensures context.Some? ==> r == Success(context.value.theme)
  {
    var ctx := UseTheme(context);
    match ctx {
      case Failure(e) => r := Failure(e);
      case Success(p) => r := Success(p.theme);
    }
  }
}
