/** The language provider: the current interface language, its persistence
    in local storage under the key 'language', the `lang` attribute of the
    document, and the per-language translation dictionaries. */
module Language {
  import opened Basics

  const French := "fr"
  const English := "en"

  /** The only codes the provider accepts. */
  predicate Supported(code: string) {
    code == French || code == English
  }

  /** What the provider controls: the current language, the stored
      'language' entry and the document's `lang` attribute (absent until the
      provider first writes it). */
  datatype Preferences = Preferences(language: string, stored: Option<string>, documentLang: Option<string>)

  /** The state before the mount effect: French, with whatever local storage
      already holds. */
  function Initial(stored: Option<string>): (p: Preferences)
    ensures p.language == French && p.stored == stored && p.documentLang.None?
    ensures Supported(p.language)
  {
    Preferences(French, stored, None)
  }

  /** The mount effect: a stored value is adopted, and written to the
      document, only when it is exactly 'fr' or 'en'; anything else (absent,
      empty, another code) leaves the state as it was. Storage is only read. */
  function Restore(p: Preferences): (r: Preferences)
    ensures r.stored == p.stored
    ensures p.stored.Some? && Supported(p.stored.value) ==>
      r.language == p.stored.value && r.documentLang == Some(p.stored.value)
    ensures !(p.stored.Some? && Supported(p.stored.value)) ==> r == p
  {
    match p.stored
    case Some(saved) =>
      if saved != "" && (saved == French || saved == English) then
        p.(language := saved, documentLang := Some(saved))
      else p
    case None => p
  }

  /** `changeLanguage(lang)`: a supported code becomes the language, the
      stored value and the document attribute at once; any other code is
      ignored. */
  function ChangeLanguage(p: Preferences, lang: string): (r: Preferences)
    ensures Supported(lang) ==> r.language == lang && r.stored == Some(lang) && r.documentLang == Some(lang)
    ensures !Supported(lang) ==> r == p
  {
    if lang == French || lang == English then Preferences(lang, Some(lang), Some(lang)) else p
  }

  /** The language is always one the dictionaries cover: the initial state,
      the mount effect and every language change keep it supported. */
  lemma LanguageStaysSupported(p: Preferences, lang: string)
    requires Supported(p.language)
    ensures Supported(Restore(p).language)
    ensures Supported(ChangeLanguage(p, lang).language)
  {
  }

  /** Changing to the same language twice is the same as changing once. */
  lemma ChangeLanguageIdempotent(p: Preferences, lang: string)
    ensures ChangeLanguage(ChangeLanguage(p, lang), lang) == ChangeLanguage(p, lang)
  {
  }

  /** A chosen language survives a reload: a fresh provider that reads back
      what `changeLanguage` stored ends with the same language and document
      attribute. */
  lemma ReloadKeepsLanguage(p: Preferences, lang: string)
    requires Supported(lang)
    ensures Restore(Initial(ChangeLanguage(p, lang).stored)) == ChangeLanguage(p, lang)
  {
  }

  /** A reload with nothing usable stored comes back in French, without
      touching the document attribute. */
  lemma ReloadDefaultsToFrench(stored: Option<string>)
    requires stored.None? || !Supported(stored.value)
    ensures Restore(Initial(stored)) == Initial(stored)
    ensures Restore(Initial(stored)).language == French
  {
  }

  const OutsideProvider := "useLanguage must be used within a LanguageProvider"

  /** `useLanguage()`: the provider's value, or the error a component gets
      when it is rendered outside any provider. */
  function UseLanguage(context: Option<Preferences>): (r: Result<Preferences>)
    ensures r.Success? <==> context.Some?
    ensures r.Success? ==> r.value == context.value
    ensures r.Failure? ==> r.error == OutsideProvider
  {
    match context
    case Some(p) => Success(p)
    case None => Failure(OutsideProvider)
  }

  /** The top-level sections of a translation dictionary. */
  datatype Section = Nav | Hero | About | Skills | Services | GitHub | ProjectsSection | Contact | Footer

  /** The sections each shipped dictionary defines. The English dictionary
      has no `services` section. */
  function Dictionary(language: string): (d: Option<set<Section>>)
    ensures d.Some? <==> Supported(language)
  {
    if language == French then
      Some({Nav, Hero, About, Skills, Services, GitHub, ProjectsSection, Contact, Footer})
    else if language == English then
      Some({Nav, Hero, About, Skills, GitHub, ProjectsSection, Contact, Footer})
    else None
  }

  /** `t[section]` for `t = translations[language]`: present, or undefined
      (a missing dictionary or a missing section). Reading a field of the
      undefined value throws, as `t.services.title` does under English. */
  function Lookup(language: string, section: Section): (r: Result<Section>)
    ensures r.Success? <==> Dictionary(language).Some? && section in Dictionary(language).value
    ensures r.Success? ==> r.value == section
  {
    match Dictionary(language)
    case Some(sections) =>
      if section in sections then Success(section)
      else Failure("Cannot read properties of undefined")
    case None => Failure("Cannot read properties of undefined")
  }

  /** Exactly one section differs between the two dictionaries: every
      section resolves in French, and under English all but `services` do. */
  lemma OnlyServicesMissing(section: Section)
    ensures Lookup(French, section).Success?
    ensures Lookup(English, section).Success? <==> section != Services
  {
  }

  /** Every lookup a provider can make succeeds except `services` under
      English: the language invariant rules out a missing dictionary. */
  lemma ProviderLookups(p: Preferences, section: Section)
    requires Supported(p.language)
    ensures Lookup(p.language, section).Failure? <==> p.language == English && section == Services
  {
    OnlyServicesMissing(section);
  }
}
