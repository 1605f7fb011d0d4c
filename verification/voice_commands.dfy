/** The voice-command widget: the listening on/off machine driven by the
    button and the speech-recognition callbacks, and the ordered chain of
    substring rules that turns a transcript into a scroll target and a
    feedback message. Speech recognition, the random joke pick and scrolling
    are environment effects: their outcomes are parameters and results. */
module VoiceCommands {
  import opened Basics

  /** The reply a rule gives: a fixed message, or one of the jokes. */
  datatype Reply = Say(text: string) | TellJoke

  /** One branch of the else-if chain: it fires when the command includes any
      of its keywords, optionally scrolls to a section, and replies. */
  datatype Rule = Rule(keywords: seq<string>, section: Option<string>, reply: Reply)

  const Jokes: seq<string> := [
    "😄 Why do programmers prefer dark mode? Because light attracts bugs!",
    "😂 Why did the developer go broke? Because he used up all his cache!",
    "🤣 How many programmers does it take to change a light bulb? None, that's a hardware problem!",
    "😆 A SQL query walks into a bar, walks up to two tables and asks... \"Can I join you?\""
  ]

  const HomeMessage := "🏠 Going to Home"
  const HelloMessage := "👋 Hello! I'm Hamza's portfolio. Try saying \"Go to projects\"!"
  const DarkModeHint := "🌙 Try clicking the moon/sun icon in the navbar!"
  const HireMessage := "💼 Great choice! Let's get in touch!"
  const NotRecognized := "🤔 Command not recognized. Try \"help\" for available commands."

  /** The rules in `handleVoiceCommand`'s else-if order. */
  const Rules: seq<Rule> := [
    Rule(["home", "top"], Some("home"), Say(HomeMessage)),
    Rule(["about"], Some("about"), Say("👤 Going to About")),
    Rule(["skill"], Some("skills"), Say("💻 Going to Skills")),
    Rule(["project"], Some("projects"), Say("🚀 Going to Projects")),
    Rule(["service"], Some("services"), Say("⚡ Going to Services")),
    Rule(["certificate"], Some("certificates"), Say("🏆 Going to Certificates")),
    Rule(["github"], Some("github"), Say("🐙 Going to GitHub Stats")),
    Rule(["contact"], Some("contact"), Say("📧 Going to Contact")),
    Rule(["hello", "hi"], None, Say(HelloMessage)),
    Rule(["who are you"], None, Say("🤖 I'm a voice-controlled portfolio! Say commands like \"show skills\"")),
    Rule(["tell me a joke"], None, TellJoke),
    Rule(["secret", "easter egg"], None, Say("🥚 You found a secret! Try saying \"tell me a joke\" or \"matrix mode\"")),
    Rule(["matrix"], None, Say("🟢 Matrix mode activated! (Just kidding... or am I? 😎)")),
    Rule(["dark mode"], None, Say(DarkModeHint)),
    Rule(["hire", "recruit"], Some("contact"), Say(HireMessage)),
    Rule(["impressive", "amazing", "cool"], None, Say("😊 Thank you! Hamza worked hard on this!")),
    Rule(["help"], None, Say("💡 Try: \"go to projects\", \"show skills\", \"contact\", or \"tell me a joke\""))
  ]

  const HomeRule := 0
  const HelloRule := 8
  const JokeRule := 10
  const DarkModeRule := 13
  const HireRule := 14

  /** The rule's condition: the command includes one of its keywords. */
  predicate Matches(rule: Rule, command: string) {
    exists k :: k in rule.keywords && Contains(command, k)
  }

  /** The index of the first rule, from `from` on, whose condition holds. */
  function FirstMatchFrom(command: string, from: nat): (r: Option<nat>)
    requires from <= |Rules|
    ensures r.Some? ==>
      && from <= r.value < |Rules|
      && Matches(Rules[r.value], command)
      && (forall j :: from <= j < r.value ==> !Matches(Rules[j], command))
    ensures r.None? ==> forall j :: from <= j < |Rules| ==> !Matches(Rules[j], command)
    decreases |Rules| - from
  {
    if from == |Rules| then None
    else if Matches(Rules[from], command) then Some(from)
    else FirstMatchFrom(command, from + 1)
  }

  /** The branch of the else-if chain that runs for `command`. */
  function FirstMatch(command: string): (r: Option<nat>)
    ensures r.Some? ==>
      && r.value < |Rules|
      && Matches(Rules[r.value], command)
      && (forall j :: 0 <= j < r.value ==> !Matches(Rules[j], command))
    ensures r.None? ==> forall j :: 0 <= j < |Rules| ==> !Matches(Rules[j], command)
  {
    FirstMatchFrom(command, 0)
  }

  /** What one dispatched command does: where it scrolls (if anywhere) and
      the feedback message it shows. */
  datatype Outcome = Outcome(scrollTo: Option<string>, feedback: string)

  /** `handleVoiceCommand`; `jokeRoll` is `Math.floor(Math.random() * 4)`. */
  function HandleVoiceCommand(command: string, jokeRoll: nat): (o: Outcome)
    requires jokeRoll < |Jokes|
    ensures FirstMatch(command).None? ==> o == Outcome(None, NotRecognized)
    ensures FirstMatch(command).Some? ==> o.scrollTo == Rules[FirstMatch(command).value].section
    ensures FirstMatch(command).Some? ==>
      o.feedback == (match Rules[FirstMatch(command).value].reply
                     case Say(t) => t
                     case TellJoke => Jokes[jokeRoll])
  {
    match FirstMatch(command)
    case None => Outcome(None, NotRecognized)
    case Some(i) =>
      var rule := Rules[i];
      match rule.reply
      case Say(text) => Outcome(rule.section, text)
      case TellJoke => Outcome(rule.section, Jokes[jokeRoll])
  }

  /** A command that includes "home" or "top" goes home, whatever else it
      includes. */
  lemma HomeWins(command: string, jokeRoll: nat)
    requires jokeRoll < |Jokes|
    requires Contains(command, "home") || Contains(command, "top")
    ensures HandleVoiceCommand(command, jokeRoll) == Outcome(Some("home"), HomeMessage)
  {
    assert Matches(Rules[HomeRule], command);
  }

  /** The fallback message appears exactly when no rule matches, and then
      nothing scrolls. */
  lemma NotRecognizedIffNoRule(command: string, jokeRoll: nat)
    requires jokeRoll < |Jokes|
    ensures HandleVoiceCommand(command, jokeRoll).feedback == NotRecognized
      <==> forall j :: 0 <= j < |Rules| ==> !Matches(Rules[j], command)
    ensures HandleVoiceCommand(command, jokeRoll).feedback == NotRecognized
      ==> HandleVoiceCommand(command, jokeRoll).scrollTo.None?
  {
    var m := FirstMatch(command);
    if m.Some? {
      assert Matches(Rules[m.value], command);
      assert Rules[m.value].reply != Say(NotRecognized);
      assert forall k :: 0 <= k < |Jokes| ==> Jokes[k] != NotRecognized;
    }
  }

  /** "hire" includes "hi", so a command that includes "hire" stops at the
      greeting rule or earlier and never reaches the hire/recruit rule; that
      rule is reached only through "recruit". */
  lemma HireIsShadowed(command: string, jokeRoll: nat)
    requires jokeRoll < |Jokes|
    ensures Contains(command, "hire") ==>
      FirstMatch(command).Some? && FirstMatch(command).value <= HelloRule
      && HandleVoiceCommand(command, jokeRoll).feedback != HireMessage
    ensures FirstMatch(command) == Some(HireRule) ==>
      Contains(command, "recruit") && !Contains(command, "hire") && !Contains(command, "hi")
  {
    if Contains(command, "hire") {
      ContainsPrefixOf(command, "hire", "hi");
      assert Matches(Rules[HelloRule], command);
      var i := FirstMatch(command).value;
      assert Rules[i].reply != Say(HireMessage);
      assert forall k :: 0 <= k < |Jokes| ==> Jokes[k] != HireMessage;
    }
    if FirstMatch(command) == Some(HireRule) {
      assert !Matches(Rules[HelloRule], command);
      if Contains(command, "hire") {
        ContainsPrefixOf(command, "hire", "hi");
        assert false;
      }
    }
  }

  /** "dark mode" only shows a hint: it scrolls nowhere, and no outcome of
      the widget touches the theme. */
  lemma DarkModeOnlyHints(command: string, jokeRoll: nat)
    requires jokeRoll < |Jokes|
    requires FirstMatch(command) == Some(DarkModeRule)
    ensures HandleVoiceCommand(command, jokeRoll) == Outcome(None, DarkModeHint)
  {
  }

  /** The spoken command "dark mode" reaches the dark-mode rule: none of the
      thirteen earlier rules' keywords occurs in it. */
  lemma DarkModeReachesHint(jokeRoll: nat)
    requires jokeRoll < |Jokes|
    ensures FirstMatch("dark mode") == Some(DarkModeRule)
    ensures HandleVoiceCommand("dark mode", jokeRoll) == Outcome(None, DarkModeHint)
  {
    var command := "dark mode";
    forall j | 0 <= j < DarkModeRule
      ensures !Matches(Rules[j], command)
    {
      forall k | k in Rules[j].keywords
        ensures !Contains(command, k)
      {
        NoLeadingPair(command, k);
      }
    }
    assert IsPrefix("dark mode", command);
    assert Contains(command, "dark mode");
    assert "dark mode" in Rules[DarkModeRule].keywords;
    DarkModeOnlyHints(command, jokeRoll);
  }

  /** The joke rule always answers with one of the four listed jokes. */
  lemma JokeIsListed(command: string, jokeRoll: nat)
    requires jokeRoll < |Jokes|
    requires FirstMatch(command) == Some(JokeRule)
    ensures HandleVoiceCommand(command, jokeRoll).feedback in Jokes
    ensures HandleVoiceCommand(command, jokeRoll).scrollTo.None?
  {
  }

  /** Every outcome scrolls, if at all, to one of the page's sections. */
  lemma ScrollTargetsAreSections(command: string, jokeRoll: nat)
    requires jokeRoll < |Jokes|
    ensures var o := HandleVoiceCommand(command, jokeRoll);
      o.scrollTo.Some? ==> o.scrollTo.value in ["home", "about", "skills", "projects", "services", "certificates", "github", "contact"]
  {
  }

  // ---------------------------------------------------------------------------
  // Listening machine

  /** The component's state hooks (the recognition object itself is the
      environment). */
  datatype VoiceState = VoiceState(supported: bool, listening: bool, transcript: string, feedback: string, showFeedback: bool)

  const Initial := VoiceState(false, false, "", "", false)

  const UnsupportedMessage := "❌ Voice commands not supported in this browser"
  const ListeningMessage := "🎤 Listening... Speak now!"
  const StartFailedMessage := "❌ Could not start listening"
  const RecognitionErrorMessage := "❌ Error: Could not understand. Try again!"

  /** The mount effect: the browser either offers speech recognition or not. */
  function Mount(s: VoiceState, browserHasRecognition: bool): (r: VoiceState)
    ensures browserHasRecognition ==> r == s.(supported := true)
    ensures !browserHasRecognition ==> r == s
  {
    if browserHasRecognition then s.(supported := true) else s
  }

  /** `showFeedbackMessage`: set the toast text and show it. */
  function ShowFeedback(s: VoiceState, message: string): (r: VoiceState)
    ensures r.feedback == message && r.showFeedback
    ensures r.(feedback := s.feedback, showFeedback := s.showFeedback) == s
  {
    s.(feedback := message, showFeedback := true)
  }

  /** The toast's three-second timer firing. */
  function HideFeedback(s: VoiceState): (r: VoiceState)
    ensures !r.showFeedback && r.(showFeedback := s.showFeedback) == s
  {
    s.(showFeedback := false)
  }

  /** `toggleListening`; `startSucceeds` is whether `recognition.start()`
      returned without throwing. */
  function ToggleListening(s: VoiceState, startSucceeds: bool): (r: VoiceState)
    ensures !s.supported ==> r == ShowFeedback(s, UnsupportedMessage)
    ensures s.supported && s.listening ==> r == s.(listening := false)
    ensures s.supported && !s.listening && startSucceeds ==>
      r == ShowFeedback(s.(listening := true, transcript := ""), ListeningMessage)
    ensures s.supported && !s.listening && !startSucceeds ==> r == ShowFeedback(s, StartFailedMessage)
  {
    if !s.supported then ShowFeedback(s, UnsupportedMessage)
    else if s.listening then s.(listening := false)
    else if startSucceeds then ShowFeedback(s.(listening := true, transcript := ""), ListeningMessage)
    else ShowFeedback(s, StartFailedMessage)
  }

  /** `onresult`: the transcript is lower-cased, stored and dispatched. */
  function OnResult(s: VoiceState, heard: string, jokeRoll: nat): (r: (VoiceState, Option<string>))
    requires jokeRoll < |Jokes|
    ensures r.0.transcript == Lower(heard)
    ensures r.0.listening == s.listening
    ensures forall i :: 0 <= i < |r.0.transcript| ==> !IsUpper(r.0.transcript[i])
    ensures (r.0.feedback, r.1) == (HandleVoiceCommand(Lower(heard), jokeRoll).feedback, HandleVoiceCommand(Lower(heard), jokeRoll).scrollTo)
    ensures r.0.showFeedback
    ensures r.0.(transcript := s.transcript, feedback := s.feedback, showFeedback := s.showFeedback) == s
  {
    var command := Lower(heard);
    var o := HandleVoiceCommand(command, jokeRoll);
    (ShowFeedback(s.(transcript := command), o.feedback), o.scrollTo)
  }

  /** `onerror`: listening stops and an error toast shows. */
  function OnError(s: VoiceState): (r: VoiceState)
    ensures !r.listening && r.feedback == RecognitionErrorMessage && r.showFeedback
    ensures r.(listening := s.listening, feedback := s.feedback, showFeedback := s.showFeedback) == s
  {
    ShowFeedback(s.(listening := false), RecognitionErrorMessage)
  }

  /** `onend`: listening stops; nothing else changes. */
  function OnEnd(s: VoiceState): (r: VoiceState)
    ensures !r.listening && r.(listening := s.listening) == s
  {
    s.(listening := false)
  }

  /** Without browser support no event makes the widget listen. */
  lemma UnsupportedNeverListens(s: VoiceState, startSucceeds: bool)
    requires !s.supported && !s.listening
    ensures !ToggleListening(s, startSucceeds).listening
    ensures ToggleListening(s, startSucceeds).transcript == s.transcript
  {
  }

  /** With support, the button alternates listening on and off as long as
      starting succeeds; a failed start leaves it off. */
  lemma ToggleAlternates(s: VoiceState, startSucceeds: bool)
    requires s.supported
    ensures ToggleListening(s, startSucceeds).listening == (!s.listening && startSucceeds)
    ensures ToggleListening(ToggleListening(s, true), true).listening == s.listening
  {
  }
}
