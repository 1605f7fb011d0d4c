# Portfolio components, modelled in Dafny

This project models the interactive logic of a React single-page portfolio.
Each core component gets its own module. State is an immutable record, and
each handler or effect is a pure function from the old state to the new
one. Browser effects appear as parameters or results, never performed:

- HTTP responses
- local storage contents
- speech-recognition results
- random draws
- whether a DOM element exists

The modules:

- **GitHubStats**: the two-request load, the stat cards, the total star
  count, and the top-five language histogram.
  - The histogram tallies languages, turns counts into rounded
    percentages, sorts them stably by descending percentage and keeps five.
  - It is proved to list only languages of the repositories, each once,
    with its exact rounded share. Entries are ranked by percentage, with
    ties in first-appearance order. Nothing larger than a kept entry is cut.
- **VoiceCommands**: the ordered `includes` rules that turn a transcript
  into a scroll target and a feedback message, plus the listening on/off
  machine.
  - Because "hire" contains "hi", the greeting rule shadows the hire rule.
    The hire rule can only fire through "recruit".
- **Projects**: the category filter, the "no projects" message, the icon
  fallback, and the shipped project list. With that list the four category
  filters partition the projects.
- **Language**: the French/English provider.
  - The language is always supported, and survives a reload through local
    storage.
  - The English dictionary has no `services` section, so reading it under
    English fails.
- **Theme**: the dark-mode flag of the application shell, its JSON
  persistence, the `dark` class on the document, and the two-second loader.
  - Mounting reproduces the order in which the effects run.
  - A stored choice survives any number of reloads.
- **Navbar**: the scroll threshold, the language dropdown with
  click-outside closing, the mobile menu, section scrolling, and the
  per-language labels.
  - Their Arabic branches are unreachable, since the provider only holds
    French or English.
- **Contact**: field edits, the submission through the e-mail service, the
  status box, and the disabled button while sending.
- **TerminalTyping**: character-by-character typing, the blinking cursor,
  the completion prompt, and the `split('\n')` line counter (with its join
  round trip).
- **ContributionGraph**: the generated 52×7 grid, the count-to-level
  buckets, and the two five-colour palettes.

`Basics` holds the shared pieces:

- `Option` and `Result`
- `String.prototype.includes` as substring search
- ASCII `toLowerCase`
- character counting

The voice widget cannot switch the colour theme: it ignores the
`darkMode` and `toggleDarkMode` props `App` passes it, and "dark mode"
only shows a hint (`VoiceCommands.DarkModeOnlyHints`).

## Model

| member | source | states |
|---|---|---|
| Basics.ContainsIffWindow | src/components/VoiceCommands.jsx:67 | `includes` holds exactly when some window of the command equals the keyword, in both directions |
| Basics.Contains | src/components/VoiceCommands.jsx:67-118 | `includes`: the keyword is a prefix of the command or of one of its suffixes; ContainsIffWindow proves this equal to the existence of a matching window |
| Basics.Lower | src/components/VoiceCommands.jsx:27 | the lower-cased transcript has the same length, no upper-case letter, and each character lower-cased in place |
| Basics.LowerIdempotent | src/components/VoiceCommands.jsx:27 | lower-casing an already lower-cased transcript changes nothing |
| GitHubStats.FetchData | src/components/GitHubStats.jsx:16-41 | a failed profile request records its error and fetches no repositories; a failed repositories request keeps the profile and records its error; two successes store both; loading is off afterwards in every case |
| GitHubStats.LoadOutcomes | src/components/GitHubStats.jsx:16-41 | from the initial state, which of profile, repositories and error each request outcome leaves, and that an HTTP failure always ends on the error banner |
| GitHubStats.ProfileValue | src/components/GitHubStats.jsx:68-70 | a missing profile or a missing field shows 0, a present field shows its value |
| GitHubStats.TotalStars | src/components/GitHubStats.jsx:65 | the `reduce` total of the stars is 0 for no repositories and at least the stars of each repository |
| GitHubStats.Cards | src/components/GitHubStats.jsx:67-72 | four cards (repositories, followers, following, total stars), only the first with a "+" suffix |
| GitHubStats.Render | src/components/GitHubStats.jsx:102-116 | spinner exactly while loading; error banner exactly when not loading and the error text is non-empty; otherwise the dashboard with the cards and the histogram |
| GitHubStats.TotalStarsAppend | src/components/GitHubStats.jsx:65 | the star total of two lists joined is the sum of their totals |
| GitHubStats.TotalStarsIsSum | src/components/GitHubStats.jsx:65 | the total is 0 for no repositories, grows by the last repository's stars as `reduce` accumulates, and bounds every repository's stars |
| GitHubStats.TotalStarsExample | src/components/GitHubStats.jsx:65 | stars 5, 0, 3, 10, 0 total 18 |
| GitHubStats.LanguageColor | src/components/GitHubStats.jsx:44-62 | a listed language gets its listed colour, any other the grey fallback; every colour is a seven-character `#` code |
| GitHubStats.KnownLanguages | src/components/GitHubStats.jsx:81-86 | the languages counted are exactly those of repositories with a truthy language, and there are no more of them than repositories |
| GitHubStats.KnownLanguagesAppend | src/components/GitHubStats.jsx:81-86 | the `forEach` visits repositories in list order: the languages of a concatenation are those of the first part followed by those of the second |
| GitHubStats.KnownLanguagesOne | src/components/GitHubStats.jsx:82-83 | one repository contributes exactly its language when that is truthy and nothing otherwise; with the append lemma this fixes each language's multiplicity and order |
| GitHubStats.CountLanguages | src/components/GitHubStats.jsx:78-86 | the `langCounts` object after the `forEach`, one `Bump` per language; its meaning (distinct names, exact counts, first-appearance order) is the contract of CountLanguagesIsTally |
| GitHubStats.BumpShape | src/components/GitHubStats.jsx:83 | incrementing a language's count raises an existing entry by one in place or appends a new entry with count 1, leaving the others unchanged |
| GitHubStats.BumpTally | src/components/GitHubStats.jsx:81-86 | one more repository keeps the tally a tally: distinct names, exact occurrence counts, first-appearance order |
| GitHubStats.CountLanguagesIsTally | src/components/GitHubStats.jsx:78-86 | the counting loop produces each language once, with its number of occurrences, in order of first appearance |
| GitHubStats.RoundedPercent | src/components/GitHubStats.jsx:91 | the percentage is the integer nearest to 100·count/total, halves rounded up, and at most 100 when count ≤ total |
| GitHubStats.Shares | src/components/GitHubStats.jsx:88-93 | one histogram entry per tallied language, with its rounded percentage and its colour |
| GitHubStats.SortByPercentage | src/components/GitHubStats.jsx:94 | the stable sort by descending percentage keeps the number of entries; SortPermutes, SortIsSorted and SortRanks state the permutation and the order |
| GitHubStats.SortPermutes | src/components/GitHubStats.jsx:94 | sorting by percentage loses and adds no entry (a permutation) |
| GitHubStats.SortIsSorted | src/components/GitHubStats.jsx:94 | the sorted percentages are non-increasing |
| GitHubStats.SortRanks | src/components/GitHubStats.jsx:94 | the sort is stable: equal percentages keep their input order |
| GitHubStats.TopLanguagesSpec | src/components/GitHubStats.jsx:75-98 | at most five entries; each is a language of some repository with its exact rounded share (0..100) and colour; names are distinct; ranked by descending percentage, ties by first appearance; empty when no repository has a language |
| GitHubStats.TopLanguages | src/components/GitHubStats.jsx:75-98 | `calculateTopLanguages` returns at most five entries; TopLanguagesSpec and TopLanguagesKeepsTheLargest state which ones and in what order |
| GitHubStats.TopLanguagesKeepsTheLargest | src/components/GitHubStats.jsx:88-95 | the cut keeps min(5, n) of the n languages, no language left out has a larger percentage than a kept one, and every kept entry precedes every left-out one in the stable order, so at a tie the earlier language stays |
| GitHubStats.CutRespectsRank | src/components/GitHubStats.jsx:94-95 | slicing a ranked list after n entries leaves out only entries that every kept entry precedes |
| GitHubStats.TopLanguagesEmpty | src/components/GitHubStats.jsx:76-86 | no repositories, or none with a language, give an empty histogram |
| GitHubStats.TopLanguagesExample | src/components/GitHubStats.jsx:75-98 | languages JS, JS, Py give JS 67% then Py 33%, both with the fallback colour |
| VoiceCommands.FirstMatch | src/components/VoiceCommands.jsx:63-121 | the chosen rule matches the command, and no earlier rule does; no rule is chosen only when none matches |
| VoiceCommands.HandleVoiceCommand | src/components/VoiceCommands.jsx:63-121 | the first matching rule decides both where the page scrolls and the message shown (its fixed text, or the rolled joke); with no matching rule the fallback shows and nothing scrolls |
| VoiceCommands.HomeWins | src/components/VoiceCommands.jsx:67-69 | any command including "home" or "top" goes home, whatever else it includes |
| VoiceCommands.NotRecognizedIffNoRule | src/components/VoiceCommands.jsx:119-121 | the "not recognized" message appears exactly when no rule matches, and then nothing scrolls |
| VoiceCommands.HireIsShadowed | src/components/VoiceCommands.jsx:93-114 | a command including "hire" is caught by the greeting rule or earlier; the hire rule fires only for "recruit" without "hi" |
| VoiceCommands.DarkModeOnlyHints | src/components/VoiceCommands.jsx:110-111 | whenever the dark-mode branch is chosen, the outcome is the hint with no scroll; an outcome has no theme part |
| VoiceCommands.DarkModeReachesHint | src/components/VoiceCommands.jsx:67-111 | the spoken command "dark mode" passes every earlier branch and reaches the dark-mode branch, so it shows the hint and scrolls nowhere |
| VoiceCommands.JokeIsListed | src/components/VoiceCommands.jsx:97-104 | the joke rule answers with one of the four jokes and does not scroll |
| VoiceCommands.ScrollTargetsAreSections | src/components/VoiceCommands.jsx:63-114 | every scroll target is one of the page's eight section ids |
| VoiceCommands.Mount | src/components/VoiceCommands.jsx:15-24 | the widget is marked supported exactly when the browser offers speech recognition |
| VoiceCommands.ShowFeedback | src/components/VoiceCommands.jsx:57-61 | the toast shows the given message and nothing else changes |
| VoiceCommands.HideFeedback | src/components/VoiceCommands.jsx:60 | the timer hides the toast and keeps its text |
| VoiceCommands.ToggleListening | src/components/VoiceCommands.jsx:124-144 | unsupported: a warning; listening: stop; otherwise start, clearing the transcript, or report a failed start |
| VoiceCommands.OnResult | src/components/VoiceCommands.jsx:26-30 | the stored transcript is the lower-cased speech, the toast shows the dispatch's message, the scroll is the dispatch's, and listening and support are unchanged |
| VoiceCommands.OnError | src/components/VoiceCommands.jsx:32-36 | an error stops listening and shows the error toast; support and transcript are unchanged |
| VoiceCommands.OnEnd | src/components/VoiceCommands.jsx:38-40 | the end of recognition stops listening and changes nothing else |
| VoiceCommands.UnsupportedNeverListens | src/components/VoiceCommands.jsx:124-128 | without support the button never starts listening |
| VoiceCommands.ToggleAlternates | src/components/VoiceCommands.jsx:124-144 | with support, the button alternates listening on and off while starts succeed; a failed start leaves it off |
| Projects.ClickCategory | src/components/Projects.jsx:71 | a button click selects that button's category |
| Projects.InCategory | src/components/Projects.jsx:38 | the filter keeps exactly the projects of the category, each as often as in the list, in their original order |
| Projects.FilteredProjects | src/components/Projects.jsx:36-38 | 'all' shows the whole list; any other filter shows exactly that category's projects, as a subsequence |
| Projects.FilterIdempotent | src/components/Projects.jsx:36-38 | filtering a filtered list again changes nothing |
| Projects.InCategoryKeepsMatching | src/components/Projects.jsx:38 | a list whose projects all have the category is its own filter |
| Projects.NoProjectsMessageIff | src/components/Projects.jsx:201 | the message shows exactly when 'all' meets an empty list or no project has the chosen category |
| Projects.ShowsNoProjectsMessage | src/components/Projects.jsx:201 | the empty-state condition `filteredProjects.length === 0`; NoProjectsMessageIff and ShippedNoProjectsMessage state when it holds |
| Projects.CategoriesPartition | src/components/Projects.jsx:28-38 | when every project is in one of distinct categories, the category filters together hold every project exactly once |
| Projects.ShippedCategories | src/data/portfolioData.js:44-126 | every shipped project is frontend, fullstack, mobile or backend |
| Projects.ShippedCategoriesCoverAll | src/data/portfolioData.js:44-126 | the four category filters over the shipped list together show all nine projects, none twice |
| Projects.ShippedNoProjectsMessage | src/components/Projects.jsx:28-38 | with the shipped list the message shows exactly for ids that are not filter buttons |
| Projects.IconFor | src/components/Projects.jsx:98 | a known icon name is used, an absent or unknown one falls back to FaTasks |
| Projects.ShowsDemoLink | src/components/Projects.jsx:151 | the demo link renders only for a present, non-empty `demo`; ShippedIconsAndDemos shows no shipped project has one |
| Projects.ShippedIconsAndDemos | src/data/portfolioData.js:44-126 | no shipped project names an icon or a demo, so all show FaTasks and none shows a demo link |
| Language.Initial | src/LanguageContext.jsx:15 | the provider starts in French, with storage as found and no document attribute |
| Language.Restore | src/LanguageContext.jsx:17-23 | a stored 'fr' or 'en' becomes the language and the document attribute; anything else changes nothing; storage is only read |
| Language.ChangeLanguage | src/LanguageContext.jsx:25-31 | a supported code sets language, storage and document attribute together; any other code is ignored |
| Language.LanguageStaysSupported | src/LanguageContext.jsx:15-31 | restoring and changing keep the language French or English |
| Language.ChangeLanguageIdempotent | src/LanguageContext.jsx:25-31 | changing to the same language twice equals changing once |
| Language.ReloadKeepsLanguage | src/LanguageContext.jsx:17-31 | after a change, a fresh provider reading storage back ends in the same state |
| Language.ReloadDefaultsToFrench | src/LanguageContext.jsx:15-23 | with nothing usable stored, a reload stays in French and leaves the state as initialised |
| Language.UseLanguage | src/LanguageContext.jsx:6-12 | inside a provider the hook returns its value, outside it throws the "must be used within a LanguageProvider" error |
| Language.Dictionary | src/translations.js:1-399 | a dictionary exists exactly for French and English |
| Language.Lookup | src/translations.js:211-398 | reading a section succeeds exactly when the language's dictionary defines it |
| Language.OnlyServicesMissing | src/translations.js:118-135 | every section resolves in French; under English all but `services` do |
| Language.ProviderLookups | src/LanguageContext.jsx:33 | for a provider's language, the only failing read is `services` under English |
| Theme.Parse | src/App.jsx:26 | "true" and "false" parse to their flag, any other text fails |
| Theme.Stringify | src/App.jsx:37 | `JSON.stringify` of the flag is "true" or "false"; ParseStringify and StringifyParse make it the inverse of Parse |
| Theme.ParseStringify | src/App.jsx:26-37 | a written flag reads back as the same flag |
| Theme.StringifyParse | src/App.jsx:26-37 | a text that parses is exactly what writing its flag produces |
| Theme.Initial | src/App.jsx:19-20 | the shell starts light and loading, with storage as found |
| Theme.Sync | src/App.jsx:31-38 | after the effect, the `dark` class and the stored text agree with the flag |
| Theme.Mount | src/App.jsx:23-38 | after mounting, document and storage agree with the flag; nothing or an empty entry gives light mode; a parsable entry gives its flag; any other entry is modelled as the thrown parse error (non-boolean JSON included, see "## Left out") |
| Theme.ReloadKeepsMode | src/App.jsx:23-38 | mounting again on what a mount stored restores the same flag |
| Theme.Toggle | src/App.jsx:49-51 | the button flips the flag, and document and storage follow |
| Theme.ToggleInvolution | src/App.jsx:49-51 | toggling twice restores a synced state exactly |
| Theme.ToggleThenReload | src/App.jsx:31-51 | a toggled choice survives a reload |
| Theme.AfterTime | src/App.jsx:41-47 | loading ends exactly at the two-second mark, nothing else changes |
| Theme.Render | src/App.jsx:53-55 | the loader alone exactly while loading, otherwise the page in the current mode |
| Theme.PageAfterTwoSeconds | src/App.jsx:41-55 | after a successful mount the page appears exactly from 2000 ms on |
| Navbar.OnScroll | src/components/Navbar.jsx:21-27 | the bar is marked scrolled exactly when the page is scrolled more than 50 pixels |
| Navbar.ToggleDropdown | src/components/Navbar.jsx:113 | the language button flips the dropdown and nothing else |
| Navbar.OnMouseDown | src/components/Navbar.jsx:29-37 | a press outside the dropdown closes it, a press inside changes nothing |
| Navbar.FindLanguage | src/components/Navbar.jsx:19 | `find` returns the first option with the code, or nothing exactly when no option has it |
| Navbar.CurrentLanguage | src/components/Navbar.jsx:19 | the option shown is one of the listed options with the current code, and there is none exactly when the language is not fr or en |
| Navbar.CurrentLanguageIffSupported | src/components/Navbar.jsx:14-19 | the button shows an option exactly for French and English, and it is that language's option |
| Navbar.ExactlyOneHighlighted | src/components/Navbar.jsx:133 | with a supported language exactly one of the two options is highlighted |
| Navbar.ChooseLanguage | src/components/Navbar.jsx:55-58 | choosing an option applies exactly the provider's `changeLanguage` (language, storage and document `lang`) and closes the dropdown, leaving the rest of the bar as it was |
| Navbar.EveryOptionTakesEffect | src/components/Navbar.jsx:129-133 | every listed option is accepted by the provider and becomes the highlighted one |
| Navbar.ScrollToSection | src/components/Navbar.jsx:47-53 | an existing section is scrolled to and closes the mobile menu; a missing one changes nothing |
| Navbar.ToggleMobileMenu | src/components/Navbar.jsx:169 | the menu button flips the mobile menu and nothing else |
| Navbar.CloseMobileMenu | src/components/Navbar.jsx:188-204 | the overlay and the close button close the mobile menu |
| Navbar.LinkClosesMenu | src/components/Navbar.jsx:213-223 | following a link from the open menu scrolls to it and closes the menu |
| Navbar.MobileLanguageLabel | src/components/Navbar.jsx:234 | Arabic, English and default headings of the mobile language selector |
| Navbar.MobileEmailLabel | src/components/Navbar.jsx:260 | Arabic, English and default labels of the mobile e-mail button |
| Navbar.ArabicLabelsUnreachable | src/components/Navbar.jsx:234-260 | for the languages the provider can hold, the labels are English exactly for English and French exactly for French |
| Navbar.ThemeButtonIcon | src/components/Navbar.jsx:160-163 | the theme button shows a sun exactly in dark mode |
| Contact.HandleChange | src/components/Contact.jsx:17-22 | the edited input takes the typed value, every other input keeps its own |
| Contact.EditsCommute | src/components/Contact.jsx:17-22 | edits to different inputs commute, a later edit to the same input overrides |
| Contact.Payload | src/components/Contact.jsx:35-41 | every message is addressed to the owner's address |
| Contact.PayloadRoundTrip | src/components/Contact.jsx:35-41 | the payload carries the whole form: it can be read back, and different forms give different payloads |
| Contact.BeginSubmit | src/components/Contact.jsx:24-27 | submitting sets loading, clears the status and sends the current form |
| Contact.FinishSubmit | src/components/Contact.jsx:45-57 | success shows the success text and empties the form; failure shows the error text and keeps it; loading ends either way |
| Contact.Submit | src/components/Contact.jsx:24-57 | the handler sends the form as it was and ends with loading off |
| Contact.SubmitLabel | src/components/Contact.jsx:251-262 | the button reads "Envoi en cours..." exactly while loading |
| Contact.CanSubmit | src/components/Contact.jsx:178-248 | the form can be submitted only when all four `required` inputs are filled in and the button is not `disabled` by loading; PendingHidesStatus and SubmitOutcome use it |
| Contact.StatusVisible | src/components/Contact.jsx:230 | the status box renders exactly for a non-empty message; SubmitOutcome and PendingHidesStatus state when it does |
| Contact.StatusIsSuccess | src/components/Contact.jsx:234 | the box takes the success style exactly for the 'success' type; SubmitOutcome ties it to the service outcome |
| Contact.PendingHidesStatus | src/components/Contact.jsx:230-248 | while sending, the status box is hidden and no second submission can start |
| Contact.SubmitOutcome | src/components/Contact.jsx:45-57 | afterwards the status box shows, in the success style exactly on success; success leaves an empty, unsubmittable form, failure keeps the form |
| Contact.RetrySendsSamePayload | src/components/Contact.jsx:50-54 | retrying after a failure sends exactly the same parameters |
| TerminalTyping.Tick | src/components/TerminalTyping.jsx:11-20 | a tick appends the next character of the text while any remain, and is a no-op at the end; the shown text stays the prefix up to the index |
| TerminalTyping.TicksFrom | src/components/TerminalTyping.jsx:11-20 | n ticks advance the index by n, capped at the text's length |
| TerminalTyping.TicksReveal | src/components/TerminalTyping.jsx:11-20 | after n ticks from the start exactly the first min(n, length) characters are shown |
| TerminalTyping.TypeAll | src/components/TerminalTyping.jsx:11-20 | typing to the end takes one tick per character and shows the whole text |
| TerminalTyping.CompletedIffWholeText | src/components/TerminalTyping.jsx:79 | the completion prompt shows exactly when the whole text is displayed |
| TerminalTyping.Blink | src/components/TerminalTyping.jsx:23-29 | a blink flips the cursor and leaves the typed text alone |
| TerminalTyping.BlinksParity | src/components/TerminalTyping.jsx:23-29 | after n blinks the cursor is as it started exactly when n is even |
| TerminalTyping.SplitLines | src/components/TerminalTyping.jsx:106 | the pieces number one more than the line feeds, and none contains a line feed |
| TerminalTyping.LineCount | src/components/TerminalTyping.jsx:106 | the "Lines" figure is one more than the number of line feeds, so at least 1 |
| TerminalTyping.SplitJoin | src/components/TerminalTyping.jsx:106 | joining the pieces with line feeds gives the text back |
| ContributionGraph.Level | src/components/DynamicContributionGraph.jsx:20 | level 0 exactly for 0, 1 for other counts up to 3, 2 for 4..6, 3 for 7..9, 4 from 10 |
| ContributionGraph.LevelMonotone | src/components/DynamicContributionGraph.jsx:20 | for non-negative counts, more contributions never give a lower level |
| ContributionGraph.TopLevelOnlyAtMax | src/components/DynamicContributionGraph.jsx:16-20 | within the draw range 0..10, level 4 is reached only by 10 |
| ContributionGraph.MakeCell | src/components/DynamicContributionGraph.jsx:17-21 | a cell carries its count, that count's level, and the day `week * 7 + day + 1` |
| ContributionGraph.Generate | src/components/DynamicContributionGraph.jsx:7-26 | 52 weeks of 7 cells, each cell taking the draw at its position in generation order |
| ContributionGraph.GridLevelsInRange | src/components/DynamicContributionGraph.jsx:12-24 | every generated cell has a level in 0..4, and level 0 exactly when its draw is 0 |
| ContributionGraph.GridTopLevelIffMax | src/components/DynamicContributionGraph.jsx:16-20 | with every draw in 0..10, a generated cell has level 4 exactly when its draw is 10 |
| ContributionGraph.DaysCoverYearOnce | src/components/DynamicContributionGraph.jsx:18 | the cells land on days 1..364, each day recovered from its position and no two cells on the same day |
| ContributionGraph.PaletteColor | src/components/DynamicContributionGraph.jsx:35-55 | a listed level gets its colour, any other level the level 0 colour |
| ContributionGraph.CellColor | src/components/DynamicContributionGraph.jsx:109-113 | on a dark page the palette named for light backgrounds is used, otherwise the other one |
| ContributionGraph.ColorsDistinguishLevels | src/components/DynamicContributionGraph.jsx:35-55 | within one mode the five levels have five different colours |
| ContributionGraph.OutOfRangeLooksEmpty | src/components/DynamicContributionGraph.jsx:43-54 | a level outside 0..4 is drawn like level 0 |
| ContributionGraph.ModesDiffer | src/components/DynamicContributionGraph.jsx:35-55 | the two modes never share a colour |
| ContributionGraph.Legend | src/components/DynamicContributionGraph.jsx:132-142 | the legend shows the five level colours of the current mode, from Less to More |
| ContributionGraph.CellsUseLegend | src/components/DynamicContributionGraph.jsx:109-142 | every cell is drawn in the legend colour at its level's position |

## Left out

- Network requests, local storage, timers, speech recognition, scrolling
  and `Math.random` are not performed. Their outcomes are parameters
  (responses, stored text, elapsed time, transcripts, element existence,
  draws).
- Animation, styling, layout and the translated display texts are left
  out. Only the dictionary's section structure is modelled.
- The shell's other components are not part of this model: Hero, About,
  Skills, Services, Certificates, Footer, Loader, ScrollProgress,
  ScrollToTop and CustomCursor. Services appears only as a reader of the
  `services` dictionary section.
- The hook-based component structure (React renders, stale closures, effect
  clean-up) is modelled as explicit transitions. Stale toast timers can
  hide a newer toast; the model exposes `HideFeedback` as an event and does
  not order timers.
- GitHubStats.RoundedPercent: `Math.round` of the floating-point quotient
  is modelled as exact rational rounding. Floating-point error at exact
  halves is not modelled.
- GitHubStats.CountLanguages: the object keys keep insertion order. Keys
  that look like integers, which JavaScript orders first, and
  prototype-named keys are not modelled.
- GitHubStats.LanguageColor: a language named like an `Object.prototype`
  member is treated as unlisted.
- Projects.IconFor: an icon named like an `Object.prototype` member (such
  as "constructor") is treated as unknown and gets FaTasks. In the browser
  the `iconMap` lookup would find the inherited member instead.
- Basics.Lower: only ASCII letters are lower-cased. Unicode case mapping
  is left out.
- Theme.Mount: a stored entry that is valid JSON but not a boolean (such as
  "1" or "null"), or a boolean with surrounding spaces, ends in Failure
  through Theme.Parse. The browser accepts it and keeps running with that
  value as the flag.
- Theme.Parse: only the texts "true" and "false" parse. Other valid JSON
  (numbers, strings, null), which would give a non-boolean flag, is
  modelled as an error like invalid JSON.
- Contact.CanSubmit: the browser's `required` check is modelled. The
  `type="email"` syntax check is not.
- TerminalTyping.Tick: characters are Dafny characters, not UTF-16 code
  units. A change of the `text` or `speed` prop while typing is not
  modelled.
- ContributionGraph.Generate: the cell date is kept as its day offset in
  January of `selectedYear`. Calendar arithmetic and `toLocaleDateString`
  are left out.
- Projects: the category button labels' `|| "Mobile"` and `|| "Backend"`
  fallbacks are display text and are not modelled.
- Projects: the project fields that are not read (description, image,
  technologies, github link) are left out.
