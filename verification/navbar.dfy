/** The navigation bar: the scrolled background, the language dropdown and
    its click-outside closing, the mobile menu, section scrolling and the
    labels that depend on the current language. */
module Navbar {
  import opened Basics
  import Language

  /** The bar's own state. */
  datatype NavState = NavState(scrolled: bool, mobileMenuOpen: bool, langDropdownOpen: bool)

  const Initial := NavState(false, false, false)

  const ScrollThreshold: real := 50.0

  /** The scroll listener: the bar is opaque exactly when the page is
      scrolled strictly more than 50 pixels. */
  function OnScroll(s: NavState, scrollY: real): (r: NavState)
    ensures r.scrolled <==> scrollY > ScrollThreshold
    ensures r.mobileMenuOpen == s.mobileMenuOpen && r.langDropdownOpen == s.langDropdownOpen
  {
    s.(scrolled := scrollY > ScrollThreshold)
  }

  /** The language button flips the dropdown. */
  function ToggleDropdown(s: NavState): (r: NavState)
    ensures r.langDropdownOpen == !s.langDropdownOpen
    ensures r.scrolled == s.scrolled && r.mobileMenuOpen == s.mobileMenuOpen
  {
    s.(langDropdownOpen := !s.langDropdownOpen)
  }

  /** The document-wide mousedown listener: a press outside the dropdown's
      container closes it, a press inside leaves everything as it was. */
  function OnMouseDown(s: NavState, insideDropdown: bool): (r: NavState)
    ensures !insideDropdown ==> !r.langDropdownOpen
    ensures insideDropdown ==> r == s
    ensures r.scrolled == s.scrolled && r.mobileMenuOpen == s.mobileMenuOpen
  {
    if insideDropdown then s else s.(langDropdownOpen := false)
  }

  /** A language option, as the dropdown lists it. */
  datatype LanguageOption = LanguageOption(code: string, name: string, flag: string)

  const Languages: seq<LanguageOption> := [
    LanguageOption("fr", "Français", "🇫🇷"),
    LanguageOption("en", "English", "🇬🇧")
  ]

  /** `languages.find(lang => lang.code === language)`. */
  function FindLanguage(options: seq<LanguageOption>, code: string): (r: Option<LanguageOption>)
    ensures r.Some? ==> r.value in options && r.value.code == code
    ensures r.None? <==> forall o :: o in options ==> o.code != code
    ensures r.Some? ==>
      exists i :: (0 <= i < |options| && options[i] == r.value &&
                   forall j :: 0 <= j < i ==> options[j].code != code)
    decreases |options|
  {
    if |options| == 0 then None
    else if options[0].code == code then Some(options[0])
    else
      var r := FindLanguage(options[1..], code);
      assert forall o :: o in options ==> o == options[0] || o in options[1..];
      if r.Some? then
        var i :| 0 <= i < |options[1..]| && options[1..][i] == r.value &&
          forall j :: 0 <= j < i ==> options[1..][j].code != code;
        assert options[i + 1] == r.value;
        r
      else r
  }

  /** The flag and code shown on the dropdown button. */
  function CurrentLanguage(language: string): (r: Option<LanguageOption>)
    ensures r.Some? ==> r.value in Languages && r.value.code == language
    ensures r.None? <==> !Language.Supported(language)
  {
    FindLanguage(Languages, language)
  }

  /** The button shows an option for exactly the languages the provider can
      hold, and it is the option of that language; for any other code it
      shows nothing. */
  lemma CurrentLanguageIffSupported(language: string)
    ensures CurrentLanguage(language).Some? <==> Language.Supported(language)
    ensures CurrentLanguage(language).Some? ==> CurrentLanguage(language).value.code == language
  {
    var r := CurrentLanguage(language);
    if Language.Supported(language) {
      if language == "fr" {
        assert Languages[0].code == language;
      } else {
        assert Languages[1].code == language;
      }
    } else {
      assert forall o :: o in Languages ==> o.code != language;
    }
  }

  /** An option is highlighted when it is the current language: with a
      supported language exactly one of the two is. */
  predicate Highlighted(o: LanguageOption, language: string) {
    o.code == language
  }

  lemma ExactlyOneHighlighted(language: string)
    requires Language.Supported(language)
    ensures Highlighted(Languages[0], language) != Highlighted(Languages[1], language)
  {
  }

  /** Picking an option changes the language and closes the dropdown. */
  function ChooseLanguage(s: NavState, p: Language.Preferences, code: string): (r: (NavState, Language.Preferences))
    ensures !r.0.langDropdownOpen
    ensures r.0.scrolled == s.scrolled && r.0.mobileMenuOpen == s.mobileMenuOpen
    ensures Language.Supported(code) ==> r.1.language == code && r.1.stored == Some(code)
    ensures !Language.Supported(code) ==> r.1 == p
    ensures r.1 == Language.ChangeLanguage(p, code)
  {
    (s.(langDropdownOpen := false), Language.ChangeLanguage(p, code))
  }

  /** Every listed option is one the provider accepts, so picking it always
      takes effect and it becomes the highlighted option. */
  lemma EveryOptionTakesEffect(s: NavState, p: Language.Preferences, i: nat)
    requires i < |Languages|
    ensures ChooseLanguage(s, p, Languages[i].code).1.language == Languages[i].code
    ensures Highlighted(Languages[i], ChooseLanguage(s, p, Languages[i].code).1.language)
  {
  }

  /** The section anchors the links point to. */
  const NavHrefs: seq<string> := ["#home", "#about", "#skills", "#projects", "#contact"]

  /** `scrollToSection(href)`: when the element exists the page scrolls to it
      and the mobile menu closes; when it does not, nothing happens. The
      result is the anchor scrolled to, if any. */
  function ScrollToSection(s: NavState, href: string, elementExists: bool): (r: (NavState, Option<string>))
    ensures elementExists ==> r.1 == Some(href) && !r.0.mobileMenuOpen
    ensures elementExists ==> r.0.scrolled == s.scrolled && r.0.langDropdownOpen == s.langDropdownOpen
    ensures !elementExists ==> r.0 == s && r.1.None?
  {
    if elementExists then (s.(mobileMenuOpen := false), Some(href)) else (s, None)
  }

  /** The menu button flips the mobile menu. */
  function ToggleMobileMenu(s: NavState): (r: NavState)
    ensures r.mobileMenuOpen == !s.mobileMenuOpen
    ensures r.scrolled == s.scrolled && r.langDropdownOpen == s.langDropdownOpen
  {
    s.(mobileMenuOpen := !s.mobileMenuOpen)
  }

  /** The overlay and the close button both close the mobile menu. */
  function CloseMobileMenu(s: NavState): (r: NavState)
    ensures !r.mobileMenuOpen
    ensures r.scrolled == s.scrolled && r.langDropdownOpen == s.langDropdownOpen
  {
    s.(mobileMenuOpen := false)
  }

  /** Opening the menu and following a link that exists closes it again. */
  lemma LinkClosesMenu(s: NavState, i: nat)
    requires i < |NavHrefs|
    ensures !ScrollToSection(ToggleMobileMenu(s), NavHrefs[i], true).0.mobileMenuOpen
    ensures ScrollToSection(ToggleMobileMenu(s), NavHrefs[i], true).1 == Some(NavHrefs[i])
  {
  }

  /** The heading of the mobile language selector. */
  function MobileLanguageLabel(language: string): (text: string)
    ensures language == "ar" ==> text == "اللغة"
    ensures language == "en" ==> text == "Language"
    ensures language != "ar" && language != "en" ==> text == "Langue"
  {
    if language == "ar" then "اللغة" else if language == "en" then "Language" else "Langue"
  }

  /** The label of the mobile email button. */
  function MobileEmailLabel(language: string): (text: string)
    ensures language == "ar" ==> text == "إرسال بريد"
    ensures language == "en" ==> text == "Send Email"
    ensures language != "ar" && language != "en" ==> text == "Envoyer un email"
  {
    if language == "ar" then "إرسال بريد" else if language == "en" then "Send Email" else "Envoyer un email"
  }

  /** The Arabic branches of the two labels can never be taken: the provider
      only ever holds French or English, and the labels are English exactly
      for English. */
  lemma ArabicLabelsUnreachable(language: string)
    requires Language.Supported(language)
    ensures MobileLanguageLabel(language) == "Language" <==> language == "en"
    ensures MobileLanguageLabel(language) == "Langue" <==> language == "fr"
    ensures MobileEmailLabel(language) == "Send Email" <==> language == "en"
    ensures MobileEmailLabel(language) == "Envoyer un email" <==> language == "fr"
  {
  }

  /** The theme button shows a sun in dark mode and a moon in light mode. */
  datatype ThemeIcon = Sun | Moon

  function ThemeButtonIcon(darkMode: bool): (icon: ThemeIcon)
    ensures icon == Sun <==> darkMode
  {
    if darkMode then Sun else Moon
  }
}
