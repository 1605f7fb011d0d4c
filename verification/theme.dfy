/** The application shell: the dark-mode flag, its persistence in local
    storage under the key 'darkMode' as JSON text, the `dark` class on the
    document root, and the two-second loading screen. */
module Theme {
  import opened Basics

  /** What the shell controls: the flag, the loading gate, the stored
      'darkMode' entry and whether the document root carries `dark`. */
  datatype AppState = AppState(darkMode: bool, loading: bool, stored: Option<string>, rootDark: bool)

  /** `JSON.stringify` of a boolean. */
  function Stringify(b: bool): (text: string)
    ensures text == "true" || text == "false"
  {
    if b then "true" else "false"
  }

  const ParseError := "SyntaxError: invalid JSON"

  /** `JSON.parse` restricted to the texts the shell itself writes: the two
      boolean literals parse, any other text is an error. */
  function Parse(text: string): (r: Result<bool>)
    ensures r.Success? <==> text == "true" || text == "false"
    ensures r.Success? ==> r.value == (text == "true")
  {
    if text == "true" then Success(true)
    else if text == "false" then Success(false)
    else Failure(ParseError)
  }

  /** The stored text always reads back as the flag it was written from. */
  lemma ParseStringify(b: bool)
    ensures Parse(Stringify(b)) == Success(b)
  {
  }

  /** Conversely, a text that parses is exactly what writing its value back
      produces. */
  lemma StringifyParse(text: string)
    requires Parse(text).Success?
    ensures Stringify(Parse(text).value) == text
  {
  }

  /** The first render: light mode, loading, storage as found, no `dark`
      class yet. */
  function Initial(stored: Option<string>): (s: AppState)
    ensures !s.darkMode && s.loading && s.stored == stored && !s.rootDark
  {
    AppState(false, true, stored, false)
  }

  /** The document and storage agree with the flag. */
  predicate Synced(s: AppState) {
    s.rootDark == s.darkMode && s.stored == Some(Stringify(s.darkMode))
  }

  /** The effect that runs whenever the flag changes: the root gets or loses
      `dark` and the flag is written back as JSON. */
  function Sync(s: AppState): (r: AppState)
    ensures Synced(r)
    ensures r.darkMode == s.darkMode && r.loading == s.loading
  {
    s.(rootDark := s.darkMode, stored := Some(Stringify(s.darkMode)))
  }

  /** Mounting: the restore effect reads the entry as found, the sync effect
      then runs with the initial light flag and writes "false", and when the
      restored flag differs the sync effect runs again. A non-empty entry that
      is not JSON makes the restore effect throw. */
  function Mount(stored: Option<string>): (r: Result<AppState>)
    ensures r.Success? ==> Synced(r.value) && r.value.loading
    ensures (stored.None? || stored.value == "") ==> r.Success? && !r.value.darkMode
    ensures stored.Some? && stored.value != "" ==>
      (r.Success? <==> Parse(stored.value).Success?)
    ensures stored.Some? && Parse(stored.value).Success? ==>
      r.Success? && r.value.darkMode == Parse(stored.value).value
  {
    var first := Sync(Initial(stored));
    match stored
    case Some(saved) =>
      if saved == "" then Success(first)
      else
        (match Parse(saved)
         case Success(b) => Success(Sync(first.(darkMode := b)))
         case Failure(e) => Failure(e))
    case None => Success(first)
  }

  /** A choice survives a reload: mounting again on what a mount left in
      storage restores the same flag. */
  lemma ReloadKeepsMode(stored: Option<string>)
    requires Mount(stored).Success?
    ensures Mount(Mount(stored).value.stored).Success?
    ensures Mount(Mount(stored).value.stored).value.darkMode == Mount(stored).value.darkMode
  {
    ParseStringify(Mount(stored).value.darkMode);
  }

  /** `toggleDarkMode` followed by the sync effect it triggers. */
  function Toggle(s: AppState): (r: AppState)
    ensures r.darkMode == !s.darkMode && r.loading == s.loading
    ensures Synced(r)
  {
    Sync(s.(darkMode := !s.darkMode))
  }

  /** Toggling twice restores a synced state exactly. */
  lemma ToggleInvolution(s: AppState)
    requires Synced(s)
    ensures Toggle(Toggle(s)) == s
  {
  }

  /** A toggle survives a reload too: what it stored reads back as the new
      flag. */
  lemma ToggleThenReload(s: AppState)
    ensures Mount(Toggle(s).stored).Success?
    ensures Mount(Toggle(s).stored).value.darkMode == !s.darkMode
  {
    ParseStringify(!s.darkMode);
  }

  const LoadingMillis := 2000

  /** The loading timer: the flag drops once two seconds have passed since
      mounting. */
  function AfterTime(s: AppState, elapsedMillis: nat): (r: AppState)
    ensures r.loading <==> s.loading && elapsedMillis < LoadingMillis
    ensures r.darkMode == s.darkMode && r.stored == s.stored && r.rootDark == s.rootDark
  {
    if elapsedMillis >= LoadingMillis then s.(loading := false) else s
  }

  /** What the shell renders: the loader alone while loading, otherwise the
      page in the current mode. */
  datatype Screen = Loader | Page(dark: bool)

  function Render(s: AppState): (screen: Screen)
    ensures screen == Loader <==> s.loading
    ensures screen.Page? ==> screen.dark == s.darkMode
  {
    if s.loading then Loader else Page(s.darkMode)
  }

  /** The page appears exactly from the two-second mark on. */
  lemma PageAfterTwoSeconds(stored: Option<string>, elapsedMillis: nat)
    requires Mount(stored).Success?
    ensures Render(AfterTime(Mount(stored).value, elapsedMillis)).Page? <==> elapsedMillis >= LoadingMillis
  {
  }
}
