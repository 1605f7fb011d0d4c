/** The GitHub statistics section: the two-request load sequence, the stat
    cards with their fallbacks, the total star count and the top-languages
    histogram with its colour table. The two HTTP requests are replaced by
    their outcomes, passed in as parameters. */
module GitHubStats {
  import opened Basics

  /** The fields of a repository the section reads. A `language` that is
      absent (`null`) or empty is falsy and ignored by the histogram. */
  datatype Repo = Repo(name: string, language: Option<string>, stars: nat)

  /** The fields of the user profile the section reads; each may be absent. */
  datatype Profile = Profile(publicRepos: Option<nat>, followers: Option<nat>, following: Option<nat>)

  /** The outcome of one request: a parsed body, a non-2xx status (which the
      code turns into its own error), or a rejection (network failure or an
      unparsable body) carrying the thrown error's message. */
  datatype Response<T> = Ok(body: T) | HttpError | Rejected(message: string)

  /** The component's four state hooks. */
  datatype StatsState = StatsState(profile: Option<Profile>, repos: seq<Repo>, loading: bool, error: Option<string>)

  const Initial := StatsState(None, [], true, None)

  const ProfileError := "Failed to fetch user profile"
  const ReposError := "Failed to fetch repositories"

  /** The message of the error thrown for a failed request. */
  function FailureMessage<T>(res: Response<T>, httpMessage: string): string
    requires !res.Ok?
  {
    if res.HttpError? then httpMessage else res.message
  }

  /** `fetchData`: the profile request, then (only if it succeeded) the
      repositories request; the first failure is caught and recorded, and
      `loading` is cleared in the `finally` block whatever happened. */
  function FetchData(s: StatsState, profileRes: Response<Profile>, reposRes: Response<seq<Repo>>): (r: StatsState)
    ensures !r.loading
    ensures !profileRes.Ok? ==> r == s.(loading := false, error := Some(FailureMessage(profileRes, ProfileError)))
    ensures profileRes.Ok? && !reposRes.Ok? ==>
      r == s.(profile := Some(profileRes.body), loading := false, error := Some(FailureMessage(reposRes, ReposError)))
    ensures profileRes.Ok? && reposRes.Ok? ==>
      r == s.(profile := Some(profileRes.body), repos := reposRes.body, loading := false)
  {
    var s1 := s.(loading := true);
    var s2 :=
      match profileRes
      case HttpError => s1.(error := Some(ProfileError))
      case Rejected(m) => s1.(error := Some(m))
      case Ok(p) =>
        var withProfile := s1.(profile := Some(p));
        match reposRes
        case HttpError => withProfile.(error := Some(ReposError))
        case Rejected(m) => withProfile.(error := Some(m))
        case Ok(rs) => withProfile.(repos := rs);
    s2.(loading := false)
  }

  /** One stat card: its value, and whether the value is followed by "+". */
  datatype StatCard = StatCard(value: nat, plusSuffix: bool)

  /** What the section renders. */
  datatype StatsView = Spinner | ErrorBanner(message: string) | Dashboard(cards: seq<StatCard>, languages: seq<LanguageShare>)

  /** The three profile fields shown on the cards. */
  datatype ProfileField = PublicRepos | Followers | Following

  function FieldOf(p: Profile, f: ProfileField): Option<nat> {
    match f
    case PublicRepos => p.publicRepos
    case Followers => p.followers
    case Following => p.following
  }

  /** `profile?.field || 0`: an absent profile, an absent field and a zero
      field all display as 0; a present field displays its value. */
  function ProfileValue(profile: Option<Profile>, f: ProfileField): (v: nat)
    ensures profile.None? ==> v == 0
    ensures profile.Some? && FieldOf(profile.value, f).None? ==> v == 0
    ensures profile.Some? && FieldOf(profile.value, f).Some? ==> v == FieldOf(profile.value, f).value
  {
    match profile
    case None => 0
    case Some(p) => FieldOf(p, f).GetOr(0)
  }

  /** The four cards: public repositories, followers, following, total stars;
      only the first one carries the "+" suffix. */
  function Cards(s: StatsState): (cards: seq<StatCard>)
    ensures |cards| == 4
    ensures forall i :: 0 <= i < |cards| ==> (cards[i].plusSuffix <==> i == 0)
    ensures cards[0].value == ProfileValue(s.profile, PublicRepos)
    ensures cards[1].value == ProfileValue(s.profile, Followers)
    ensures cards[2].value == ProfileValue(s.profile, Following)
    ensures cards[3].value == TotalStars(s.repos)
  {
    [ StatCard(ProfileValue(s.profile, PublicRepos), true),
      StatCard(ProfileValue(s.profile, Followers), false),
      StatCard(ProfileValue(s.profile, Following), false),
      StatCard(TotalStars(s.repos), false) ]
  }

  /** The render gate: the spinner while loading, then the error banner when
      `error` is truthy (a non-empty message), otherwise the dashboard. */
  function Render(s: StatsState): (v: StatsView)
    ensures s.loading <==> v.Spinner?
    ensures v.ErrorBanner? <==> !s.loading && s.error.Some? && s.error.value != ""
    ensures v.ErrorBanner? ==> v.message == s.error.value
    ensures v.Dashboard? ==> v.cards == Cards(s) && v.languages == TopLanguages(s.repos)
  {
    if s.loading then Spinner
    else if s.error.Some? && s.error.value != "" then ErrorBanner(s.error.value)
    else Dashboard(Cards(s), TopLanguages(s.repos))
  }

  /** The load sequence from the initial state: a failed profile request
      leaves no profile and no repositories; a failed repositories request
      keeps the profile; either failure with a non-empty message replaces the
      stats by the error banner; two successes show the dashboard. */
  lemma LoadOutcomes(profileRes: Response<Profile>, reposRes: Response<seq<Repo>>)
    ensures var r := FetchData(Initial, profileRes, reposRes);
      && !r.loading
      && (!profileRes.Ok? ==> r.profile.None? && r.repos == [] && r.error.Some?)
      && (profileRes.Ok? ==> r.profile == Some(profileRes.body))
      && (profileRes.Ok? && !reposRes.Ok? ==> r.repos == [] && r.error.Some?)
      && (profileRes.Ok? && reposRes.Ok? ==> r.error.None? && Render(r) == Dashboard(Cards(r), TopLanguages(reposRes.body)))
      && (profileRes.HttpError? || (profileRes.Ok? && reposRes.HttpError?) ==> Render(r).ErrorBanner?)
  {
  }

  // ---------------------------------------------------------------------------
  // Total stars

  /** `repos.reduce((acc, repo) => acc + repo.stargazers_count, 0)`; the sum
      is taken from the front, which gives the same natural number. */
  function TotalStars(repos: seq<Repo>): (total: nat)
    ensures |repos| == 0 ==> total == 0
    ensures forall i :: 0 <= i < |repos| ==> repos[i].stars <= total
    decreases |repos|
  {
    if |repos| == 0 then 0 else repos[0].stars + TotalStars(repos[1..])
  }

  /** The total over a concatenation is the sum of the totals, so the total
      does not depend on how the list is split into pages or chunks. */
  lemma {:induction false} TotalStarsAppend(a: seq<Repo>, b: seq<Repo>)
    ensures TotalStars(a + b) == TotalStars(a) + TotalStars(b)
    decreases |a|
  {
    if |a| == 0 {
      assert a + b == b;
    } else {
      assert (a + b)[1..] == a[1..] + b;
      TotalStarsAppend(a[1..], b);
    }
  }

  /** The total is the accumulated sum `reduce` computes: 0 for no
      repositories, and adding one repository at the end adds its stars; so
      every repository's count is bounded by the total. */
  lemma {:induction false} TotalStarsIsSum(repos: seq<Repo>)
    ensures |repos| == 0 ==> TotalStars(repos) == 0
    ensures |repos| > 0 ==> TotalStars(repos) == TotalStars(repos[..|repos| - 1]) + repos[|repos| - 1].stars
    ensures forall i :: 0 <= i < |repos| ==> repos[i].stars <= TotalStars(repos)
    decreases |repos|
  {
    if |repos| > 0 {
      assert repos == repos[..|repos| - 1] + [repos[|repos| - 1]];
      TotalStarsAppend(repos[..|repos| - 1], [repos[|repos| - 1]]);
      TotalStarsIsSum(repos[1..]);
      forall i | 1 <= i < |repos|
        ensures repos[i].stars <= TotalStars(repos)
      {
        assert repos[1..][i - 1] == repos[i];
      }
    }
  }

  /** A stars-only repository, for the worked example below. */
  function Starred(n: nat): Repo {
    Repo("", None, n)
  }

  /** Stars [5, 0, 3, 10, 0] total 18. */
  lemma TotalStarsExample()
    ensures TotalStars([Starred(5), Starred(0), Starred(3), Starred(10), Starred(0)]) == 18
  {
  }

  // ---------------------------------------------------------------------------
  // Language colours

  const DefaultColor := "#6c757d"

  const LanguageColors: map<string, string> := map[
    "JavaScript" := "#F7DF1E",
    "HTML" := "#E34F26",
    "CSS" := "#1572B6",
    "PHP" := "#777BB4",
    "Python" := "#3776AB",
    "Java" := "#007396",
    "TypeScript" := "#3178C6",
    "Vue" := "#4FC08D",
    "React" := "#61DAFB",
    "Dart" := "#00B4AB",
    "Shell" := "#89E051",
    "C" := "#555555",
    "C++" := "#F34B7D",
    "C#" := "#178600"
  ]

  /** `getLanguageColor`: the listed colour of a known language (every listed
      colour is a non-empty string, so `||` never falls through for it), and
      the grey fallback for every other language. */
  function LanguageColor(language: string): (c: string)
    ensures language in LanguageColors ==> c == LanguageColors[language]
    ensures language !in LanguageColors ==> c == DefaultColor
    ensures |c| == 7 && c[0] == '#'
  {
    var listed := if language in LanguageColors then LanguageColors[language] else "";
    if listed != "" then listed else DefaultColor
  }

  // ---------------------------------------------------------------------------
  // Top languages

  /** A repository counts towards the histogram when its language is truthy. */
  predicate HasLanguage(r: Repo) {
    r.language.Some? && r.language.value != ""
  }

  /** The languages of the repositories that have one, in list order; its
      length is the `total` of the histogram. */
  function KnownLanguages(repos: seq<Repo>): (langs: seq<string>)
    ensures |langs| <= |repos|
    ensures forall l :: l in langs <==> exists r :: r in repos && HasLanguage(r) && r.language.value == l
    decreases |repos|
  {
    if |repos| == 0 then []
    else
      var rest := KnownLanguages(repos[1..]);
      assert forall r :: r in repos[1..] ==> r in repos;
      assert forall r :: r in repos && r != repos[0] ==> r in repos[1..];
      if HasLanguage(repos[0]) then [repos[0].language.value] + rest else rest
  }

  /** The language list is built repository by repository: a list of
      repositories gives the languages of its first part followed by those of
      the rest. */
  lemma {:induction false} KnownLanguagesAppend(a: seq<Repo>, b: seq<Repo>)
    ensures KnownLanguages(a + b) == KnownLanguages(a) + KnownLanguages(b)
    decreases |a|
  {
    if |a| > 0 {
      assert (a + b)[1..] == a[1..] + b;
      KnownLanguagesAppend(a[1..], b);
    } else {
      assert a + b == b;
    }
  }

  /** A single repository contributes its language exactly when it has one,
      so with KnownLanguagesAppend the list holds each repository's language
      once, in repository order, and skips the others. */
  lemma KnownLanguagesOne(r: Repo)
    ensures KnownLanguages([r]) == if HasLanguage(r) then [r.language.value] else []
  {
  }

  /** One entry of the `langCounts` object. */
  datatype Tally = Tally(name: string, count: nat)

  /** `langCounts[name] = (langCounts[name] || 0) + 1`, with the object's
      entries kept in insertion order. */
  function Bump(t: seq<Tally>, name: string): seq<Tally>
    decreases |t|
  {
    if |t| == 0 then [Tally(name, 1)]
    else if t[0].name == name then [Tally(name, t[0].count + 1)] + t[1..]
    else [t[0]] + Bump(t[1..], name)
  }

  /** `langCounts` after the `forEach` over the repositories. */
  function CountLanguages(langs: seq<string>): seq<Tally>
    decreases |langs|
  {
    if |langs| == 0 then [] else Bump(CountLanguages(langs[..|langs| - 1]), langs[|langs| - 1])
  }

  function Names(t: seq<Tally>): (ns: seq<string>)
    ensures |ns| == |t|
    ensures forall i :: 0 <= i < |t| ==> ns[i] == t[i].name
  {
    seq(|t|, i requires 0 <= i < |t| => t[i].name)
  }

  predicate Distinct<T(==)>(s: seq<T>) {
    forall i, j :: 0 <= i < j < |s| ==> s[i] != s[j]
  }

  /** Index of the first occurrence of `x` in `s`, or `|s|` when absent. */
  function FirstIndex(s: seq<string>, x: string): (k: nat)
    ensures k <= |s|
    ensures k < |s| <==> x in s
    ensures k < |s| ==> s[k] == x && forall j :: 0 <= j < k ==> s[j] != x
    decreases |s|
  {
    if |s| == 0 then 0 else if s[0] == x then 0 else 1 + FirstIndex(s[1..], x)
  }

  /** `t` is the tally of `langs`: each language listed once, with its
      number of occurrences, in the order of first appearance. */
  ghost predicate TallyOf(t: seq<Tally>, langs: seq<string>) {
    && Distinct(Names(t))
    && (forall l :: l in langs <==> l in Names(t))
    && (forall i :: 0 <= i < |t| ==> t[i].count == multiset(langs)[t[i].name])
    && (forall i, j :: 0 <= i < j < |t| ==> FirstIndex(langs, t[i].name) < FirstIndex(langs, t[j].name))
  }

  /** How `Bump` changes a tally with distinct names: an existing name has
      its count raised by one in place, a new name is appended with count 1,
      and every other entry is untouched. */
  lemma {:induction false} BumpShape(t: seq<Tally>, name: string)
    requires Distinct(Names(t))
    ensures name in Names(t) ==> |Bump(t, name)| == |t|
    ensures name !in Names(t) ==> Bump(t, name) == t + [Tally(name, 1)]
    ensures forall i :: 0 <= i < |t| && t[i].name != name ==> Bump(t, name)[i] == t[i]
    ensures forall i :: 0 <= i < |t| && t[i].name == name ==> Bump(t, name)[i] == Tally(name, t[i].count + 1)
    decreases |t|
  {
    if |t| > 0 {
      assert Names(t[1..]) == Names(t)[1..];
      assert Distinct(Names(t[1..]));
      BumpShape(t[1..], name);
      var b := Bump(t, name);
      if t[0].name == name {
        assert b == [Tally(name, t[0].count + 1)] + t[1..];
        forall i | 0 < i < |t|
          ensures t[i].name != name
        {
          assert Names(t)[0] != Names(t)[i];
        }
      } else {
        var rest := Bump(t[1..], name);
        assert b == [t[0]] + rest;
        assert name in Names(t) <==> name in Names(t[1..]);
        forall i | 0 < i < |t|
          ensures b[i] == rest[i - 1]
        {
        }
      }
    }
  }

  lemma BumpNames(t: seq<Tally>, langs: seq<string>, x: string)
    requires Distinct(Names(t))
    requires forall l :: l in langs <==> l in Names(t)
    ensures Distinct(Names(Bump(t, x)))
    ensures forall l :: l in langs + [x] <==> l in Names(Bump(t, x))
  {
    BumpShape(t, x);
    if x !in Names(t) {
      assert Names(t + [Tally(x, 1)]) == Names(t) + [x];
    } else {
      assert Names(Bump(t, x)) == Names(t);
    }
  }

  lemma BumpCounts(t: seq<Tally>, langs: seq<string>, x: string)
    requires Distinct(Names(t))
    requires forall l :: l in langs <==> l in Names(t)
    requires forall i :: 0 <= i < |t| ==> t[i].count == multiset(langs)[t[i].name]
    ensures var t' := Bump(t, x);
      forall i :: 0 <= i < |t'| ==> t'[i].count == multiset(langs + [x])[t'[i].name]
  {
    BumpShape(t, x);
    var t' := Bump(t, x);
    assert multiset(langs + [x]) == multiset(langs) + multiset{x};
    forall i | 0 <= i < |t'|
      ensures t'[i].count == multiset(langs + [x])[t'[i].name]
    {
      if i == |t| {
        assert x !in Names(t);
        assert x !in langs;
      } else if t[i].name == x {
        assert t'[i] == Tally(x, t[i].count + 1);
      } else {
        assert t'[i] == t[i];
      }
    }
  }

  lemma FirstIndexAppend(s: seq<string>, x: string, l: string)
    ensures l in s ==> FirstIndex(s + [x], l) == FirstIndex(s, l)
    ensures l !in s && l == x ==> FirstIndex(s + [x], l) == |s|
  {
    var k := FirstIndex(s, l);
    if l in s {
      assert (s + [x])[k] == l;
      assert forall j :: 0 <= j < k ==> (s + [x])[j] == s[j];
    } else if l == x {
      assert (s + [x])[|s|] == l;
    }
  }

  lemma BumpOrder(t: seq<Tally>, langs: seq<string>, x: string)
    requires Distinct(Names(t))
    requires forall l :: l in langs <==> l in Names(t)
    requires forall i, j :: 0 <= i < j < |t| ==> FirstIndex(langs, t[i].name) < FirstIndex(langs, t[j].name)
    ensures var t' := Bump(t, x);
      forall i, j :: 0 <= i < j < |t'| ==> FirstIndex(langs + [x], t'[i].name) < FirstIndex(langs + [x], t'[j].name)
  {
    BumpShape(t, x);
    var t' := Bump(t, x);
    forall i, j | 0 <= i < j < |t'|
      ensures FirstIndex(langs + [x], t'[i].name) < FirstIndex(langs + [x], t'[j].name)
    {
      assert t'[i].name == t[i].name;
      assert Names(t)[i] in Names(t);
      FirstIndexAppend(langs, x, t'[i].name);
      FirstIndexAppend(langs, x, t'[j].name);
      if j < |t| {
        assert t'[j].name == t[j].name;
        assert Names(t)[j] in Names(t);
      } else {
        assert t'[j].name == x && x !in langs;
      }
    }
  }

  /** Adding one occurrence keeps the tally a tally. */
  lemma BumpTally(t: seq<Tally>, langs: seq<string>, x: string)
    requires TallyOf(t, langs)
    ensures TallyOf(Bump(t, x), langs + [x])
  {
    BumpNames(t, langs, x);
    BumpCounts(t, langs, x);
    BumpOrder(t, langs, x);
  }

  /** `CountLanguages` computes the tally of its input. */
  lemma {:induction false} CountLanguagesIsTally(langs: seq<string>)
    ensures TallyOf(CountLanguages(langs), langs)
    decreases |langs|
  {
    if |langs| > 0 {
      var init, x := langs[..|langs| - 1], langs[|langs| - 1];
      assert init + [x] == langs;
      var t := CountLanguages(init);
      assert CountLanguages(langs) == Bump(t, x);
      CountLanguagesIsTally(init);
      BumpTally(t, init, x);
    }
  }

  /** `Math.round(count / total * 100)` in exact rational arithmetic: the
      integer nearest to 100·count/total, halves rounded up. */
  function RoundedPercent(count: nat, total: nat): (p: nat)
    requires 0 < total
    ensures 2 * total * p <= 200 * count + total < 2 * total * (p + 1)
    ensures count <= total ==> p <= 100
  {
    var p := (200 * count + total) / (2 * total);
    PercentBounds(count, total, p);
    p
  }

  /** The quotient bounds behind `RoundedPercent`. */
  lemma PercentBounds(count: nat, total: nat, p: nat)
    requires 0 < total && p == (200 * count + total) / (2 * total)
    ensures 2 * total * p <= 200 * count + total < 2 * total * (p + 1)
    ensures count <= total ==> p <= 100
  {
    DivBounds(200 * count + total, 2 * total);
    if count <= total {
      DivBelow(200 * count + total, 2 * total, 101);
    }
  }

  /** Euclidean division brackets the dividend between two multiples. */
  lemma DivBounds(a: nat, d: nat)
    requires d > 0
    ensures d * (a / d) <= a < d * (a / d + 1)
  {
    var q, m := a / d, a % d;
    assert a == d * q + m && m < d;
    assert d * (q + 1) == d * q + d;
  }

  /** A dividend below `d * bound` has a quotient below `bound`. */
  lemma DivBelow(a: nat, d: nat, bound: nat)
    requires d > 0 && a < d * bound
    ensures a / d < bound
  {
    DivBounds(a, d);
    if a / d >= bound {
      MulMonotone(d, bound, a / d);
    }
  }

  lemma MulMonotone(d: nat, x: nat, y: nat)
    requires x <= y
    ensures d * x <= d * y
  {
    var z: nat := y - x;
    assert d * y == d * x + d * z;
  }

  /** One entry of the histogram as the component renders it. */
  datatype LanguageShare = LanguageShare(name: string, percentage: nat, color: string)

  /** The `.map(...)` step: each tallied language with its rounded share of
      `total` and its colour. */
  function Shares(t: seq<Tally>, total: nat): (r: seq<LanguageShare>)
    requires total > 0 || |t| == 0
    ensures |r| == |t|
    ensures forall i :: 0 <= i < |r| ==>
      r[i].name == t[i].name && r[i].percentage == RoundedPercent(t[i].count, total) && r[i].color == LanguageColor(t[i].name)
  {
    seq(|t|, i requires 0 <= i < |t| => LanguageShare(t[i].name, RoundedPercent(t[i].count, total), LanguageColor(t[i].name)))
  }

  /** Inserts `x` in front of the first entry whose percentage is not larger. */
  function Insert(x: LanguageShare, s: seq<LanguageShare>): (r: seq<LanguageShare>)
    ensures |r| == |s| + 1
    decreases |s|
  {
    if |s| == 0 then [x]
    else if x.percentage >= s[0].percentage then [x] + s
    else [s[0]] + Insert(x, s[1..])
  }

  /** `.sort((a, b) => b.percentage - a.percentage)`. The array sort is
      stable, and a stable sort's output is determined by the comparator, so
      any stable algorithm models it; this one is insertion sort. */
  function SortByPercentage(s: seq<LanguageShare>): (r: seq<LanguageShare>)
    ensures |r| == |s|
    decreases |s|
  {
    if |s| == 0 then [] else Insert(s[0], SortByPercentage(s[1..]))
  }

  const TopCount := 5

  /** `calculateTopLanguages`. */
  function TopLanguages(repos: seq<Repo>): (r: seq<LanguageShare>)
    ensures |r| <= TopCount
  {
    if |repos| == 0 then []
    else
      var langs := KnownLanguages(repos);
      var sorted := SortByPercentage(Shares(CountLanguages(langs), |langs|));
      sorted[..Min(TopCount, |sorted|)]
  }

  /** Where a share's language first appears in `langs`. */
  function Rank(e: LanguageShare, langs: seq<string>): nat {
    FirstIndex(langs, e.name)
  }

  /** `a` precedes `b` in the histogram order: a larger percentage, or an
      equal one and an earlier first appearance in `langs`. */
  predicate Before(a: LanguageShare, b: LanguageShare, langs: seq<string>) {
    a.percentage > b.percentage || (a.percentage == b.percentage && Rank(a, langs) < Rank(b, langs))
  }

  /** The order of the histogram: every entry precedes every later one. */
  ghost predicate RankedBy(s: seq<LanguageShare>, langs: seq<string>) {
    forall i, j :: 0 <= i < j < |s| ==> Before(s[i], s[j], langs)
  }

  lemma {:induction false} InsertPermutes(x: LanguageShare, s: seq<LanguageShare>)
    ensures multiset(Insert(x, s)) == multiset(s) + multiset{x}
    decreases |s|
  {
    if |s| > 0 && x.percentage < s[0].percentage {
      InsertPermutes(x, s[1..]);
      assert s == [s[0]] + s[1..];
    }
  }

  /** Sorting permutes its input. */
  lemma {:induction false} SortPermutes(s: seq<LanguageShare>)
    ensures multiset(SortByPercentage(s)) == multiset(s)
    decreases |s|
  {
    if |s| > 0 {
      SortPermutes(s[1..]);
      InsertPermutes(s[0], SortByPercentage(s[1..]));
      assert s == [s[0]] + s[1..];
    }
  }

  /** Putting in front an entry that precedes every entry of a ranked list
      keeps it ranked. */
  lemma ConsRanked(x: LanguageShare, s: seq<LanguageShare>, langs: seq<string>)
    requires RankedBy(s, langs)
    requires forall k :: 0 <= k < |s| ==> Before(x, s[k], langs)
    ensures RankedBy([x] + s, langs)
  {
    var r := [x] + s;
    forall i, j | 0 <= i < j < |r|
      ensures Before(r[i], r[j], langs)
    {
      assert r[j] == s[j - 1];
      if i > 0 {
        assert r[i] == s[i - 1];
      }
    }
  }

  lemma {:induction false} InsertRanks(x: LanguageShare, s: seq<LanguageShare>, langs: seq<string>)
    requires RankedBy(s, langs)
    requires forall k :: 0 <= k < |s| ==> Rank(x, langs) < Rank(s[k], langs)
    ensures RankedBy(Insert(x, s), langs)
    decreases |s|
  {
    if |s| == 0 {
      assert Insert(x, s) == [x];
    } else if x.percentage >= s[0].percentage {
      forall k | 0 <= k < |s|
        ensures Before(x, s[k], langs)
      {
        if k > 0 {
          assert Before(s[0], s[k], langs);
        }
      }
      ConsRanked(x, s, langs);
    } else {
      assert RankedBy(s[1..], langs) by {
        forall i, j | 0 <= i < j < |s[1..]|
          ensures Before(s[1..][i], s[1..][j], langs)
        {
          assert s[1..][i] == s[i + 1] && s[1..][j] == s[j + 1];
        }
      }
      InsertRanks(x, s[1..], langs);
      HeadPrecedesInsert(x, s, langs);
      ConsRanked(s[0], Insert(x, s[1..]), langs);
    }
  }

  /** When `x` goes behind the head, the head precedes everything after it. */
  lemma HeadPrecedesInsert(x: LanguageShare, s: seq<LanguageShare>, langs: seq<string>)
    requires RankedBy(s, langs) && |s| > 0 && x.percentage < s[0].percentage
    ensures forall k :: 0 <= k < |Insert(x, s[1..])| ==> Before(s[0], Insert(x, s[1..])[k], langs)
  {
    InsertPermutes(x, s[1..]);
    var rest := Insert(x, s[1..]);
    forall k | 0 <= k < |rest|
      ensures Before(s[0], rest[k], langs)
    {
      assert rest[k] in multiset(rest);
      if rest[k] != x {
        assert rest[k] in multiset(s[1..]);
        var m :| 0 <= m < |s[1..]| && s[1..][m] == rest[k];
        assert s[m + 1] == rest[k];
      }
    }
  }

  /** When the input lists entries in order of first appearance, the sort
      ranks them: descending percentage, ties in input order. */
  lemma {:induction false} SortRanks(s: seq<LanguageShare>, langs: seq<string>)
    requires forall i, j :: 0 <= i < j < |s| ==> Rank(s[i], langs) < Rank(s[j], langs)
    ensures RankedBy(SortByPercentage(s), langs)
    decreases |s|
  {
    if |s| > 0 {
      SortRanks(s[1..], langs);
      SortPermutes(s[1..]);
      var rest := SortByPercentage(s[1..]);
      forall k | 0 <= k < |rest|
        ensures Rank(s[0], langs) < Rank(rest[k], langs)
      {
        assert rest[k] in multiset(s[1..]);
        var m :| 0 <= m < |s[1..]| && s[1..][m] == rest[k];
        assert s[m + 1] == rest[k];
      }
      InsertRanks(s[0], rest, langs);
    }
  }

  /** `e` is the histogram entry of one of the languages in `langs`. */
  ghost predicate ShareOf(e: LanguageShare, langs: seq<string>)
    requires |langs| > 0
  {
    && e.name in langs
    && e.percentage == RoundedPercent(multiset(langs)[e.name], |langs|)
    && e.percentage <= 100
    && e.color == LanguageColor(e.name)
  }

  /** The histogram before the cut at five lists every language once, with
      its rounded share, in first-appearance order. */
  lemma AllShares(t: seq<Tally>, langs: seq<string>)
    requires |langs| > 0 && TallyOf(t, langs)
    ensures var all := Shares(t, |langs|);
      && (forall l :: l in langs <==> exists k :: 0 <= k < |all| && all[k].name == l)
      && (forall k :: 0 <= k < |all| ==> ShareOf(all[k], langs))
      && (forall i, j :: 0 <= i < j < |all| ==> Rank(all[i], langs) < Rank(all[j], langs))
  {
    var all := Shares(t, |langs|);
    forall l | l in langs
      ensures exists k :: 0 <= k < |all| && all[k].name == l
    {
      var k :| 0 <= k < |t| && Names(t)[k] == l;
      assert all[k].name == l;
    }
    forall k | 0 <= k < |all|
      ensures ShareOf(all[k], langs)
    {
      assert Names(t)[k] in Names(t);
      assert multiset(langs)[t[k].name] <= |langs| by {
        assert multiset(langs)[t[k].name] <= |multiset(langs)|;
      }
    }
  }

  /** The sorted histogram, before the cut: entries of languages of `langs`,
      ranked. */
  lemma SortedShares(langs: seq<string>)
    requires |langs| > 0
    ensures var sorted := SortByPercentage(Shares(CountLanguages(langs), |langs|));
      && (forall k :: 0 <= k < |sorted| ==> ShareOf(sorted[k], langs))
      && RankedBy(sorted, langs)
  {
    var t := CountLanguages(langs);
    CountLanguagesIsTally(langs);
    var all := Shares(t, |langs|);
    AllShares(t, langs);
    SortRanks(all, langs);
    SortPermutes(all);
    var sorted := SortByPercentage(all);
    forall k | 0 <= k < |sorted|
      ensures ShareOf(sorted[k], langs)
    {
      assert sorted[k] in multiset(all);
      var m :| 0 <= m < |all| && all[m] == sorted[k];
    }
  }

  /** In a ranked list of histogram entries no language appears twice: the
      same name would carry the same percentage and the same rank. */
  lemma RankedNamesDistinct(s: seq<LanguageShare>, langs: seq<string>)
    requires |langs| > 0
    requires forall k :: 0 <= k < |s| ==> ShareOf(s[k], langs)
    requires RankedBy(s, langs)
    ensures forall i, j :: 0 <= i < j < |s| ==> s[i].name != s[j].name
  {
  }

  /** Every entry of the histogram is a language of some repository, names
      are distinct, each percentage is the rounded share of that language's
      repositories among those with a language (so it lies in 0..100), and
      the entries are ranked by descending percentage with ties in order of
      first appearance in the repository list. */
  lemma TopLanguagesSpec(repos: seq<Repo>)
    ensures var r := TopLanguages(repos);
      var langs := KnownLanguages(repos);
      && |r| <= TopCount
      && (|langs| > 0 ==> forall i :: 0 <= i < |r| ==> ShareOf(r[i], langs))
      && (|langs| == 0 ==> r == [])
      && (forall i, j :: 0 <= i < j < |r| ==> r[i].name != r[j].name)
      && RankedBy(r, langs)
  {
    var langs := KnownLanguages(repos);
    if |repos| == 0 || |langs| == 0 {
      return;
    }
    SortedShares(langs);
    var sorted := SortByPercentage(Shares(CountLanguages(langs), |langs|));
    var r := TopLanguages(repos);
    assert r == sorted[..Min(TopCount, |sorted|)];
    RankedNamesDistinct(r, langs);
  }

  /** Nothing is lost beyond the cut: the histogram keeps min(5, n) of the n
      distinct languages, and every language left out has a percentage no
      larger than any kept one. */
  lemma TopLanguagesKeepsTheLargest(repos: seq<Repo>)
    requires |repos| > 0
    ensures var langs := KnownLanguages(repos);
      var all := Shares(CountLanguages(langs), |langs|);
      var r := TopLanguages(repos);
      && |r| == Min(TopCount, |all|)
      && (forall e :: e in all && e !in r ==> forall i :: 0 <= i < |r| ==> e.percentage <= r[i].percentage)
      && (forall e :: e in all && e !in r ==> forall i :: 0 <= i < |r| ==> Before(r[i], e, langs))
  {
    var langs := KnownLanguages(repos);
    var all := Shares(CountLanguages(langs), |langs|);
    var sorted := SortByPercentage(all);
    assert TopLanguages(repos) == sorted[..Min(TopCount, |sorted|)];
    CutKeepsLargest(all, TopCount);
    if |langs| > 0 {
      SortedShares(langs);
      CutRespectsRank(all, TopCount, langs);
    }
  }

  /** Cutting a ranked list keeps entries that precede every entry cut off:
      among equal percentages at the cut, the earlier language stays. */
  lemma CutRespectsRank(all: seq<LanguageShare>, n: nat, langs: seq<string>)
    requires RankedBy(SortByPercentage(all), langs)
    ensures var sorted := SortByPercentage(all);
      var r := sorted[..Min(n, |sorted|)];
      forall e :: e in all && e !in r ==> forall i :: 0 <= i < |r| ==> Before(r[i], e, langs)
  {
    var sorted := SortByPercentage(all);
    SortPermutes(all);
    var r := sorted[..Min(n, |sorted|)];
    forall e | e in all && e !in r
      ensures forall i :: 0 <= i < |r| ==> Before(r[i], e, langs)
    {
      assert e in multiset(sorted);
      var k :| 0 <= k < |sorted| && sorted[k] == e;
      assert k >= |r|;
      forall i | 0 <= i < |r|
        ensures Before(r[i], e, langs)
      {
        assert r[i] == sorted[i];
      }
    }
  }

  /** Cutting the sorted list after `n` entries keeps min(n, |all|) of them,
      and nothing cut off is larger than anything kept. */
  lemma CutKeepsLargest(all: seq<LanguageShare>, n: nat)
    ensures var sorted := SortByPercentage(all);
      var r := sorted[..Min(n, |sorted|)];
      && |r| == Min(n, |all|)
      && (forall e :: e in all && e !in r ==> forall i :: 0 <= i < |r| ==> e.percentage <= r[i].percentage)
  {
    var sorted := SortByPercentage(all);
    SortPermutes(all);
    var r := sorted[..Min(n, |sorted|)];
    assert |sorted| == |all| by {
      assert |multiset(sorted)| == |multiset(all)|;
    }
    SortIsSorted(all);
    forall e | e in all && e !in r
      ensures forall i :: 0 <= i < |r| ==> e.percentage <= r[i].percentage
    {
      assert e in multiset(sorted);
      var k :| 0 <= k < |sorted| && sorted[k] == e;
      assert k >= |r|;
    }
  }

  /** Sorting yields non-increasing percentages. */
  lemma {:induction false} SortIsSorted(s: seq<LanguageShare>)
    ensures forall i, j :: 0 <= i < j < |SortByPercentage(s)| ==>
      SortByPercentage(s)[i].percentage >= SortByPercentage(s)[j].percentage
    decreases |s|
  {
    if |s| > 0 {
      SortIsSorted(s[1..]);
      InsertSorted(s[0], SortByPercentage(s[1..]));
    }
  }

  lemma {:induction false} InsertSorted(x: LanguageShare, s: seq<LanguageShare>)
    requires forall i, j :: 0 <= i < j < |s| ==> s[i].percentage >= s[j].percentage
    ensures forall i, j :: 0 <= i < j < |Insert(x, s)| ==> Insert(x, s)[i].percentage >= Insert(x, s)[j].percentage
    decreases |s|
  {
    if |s| > 0 && x.percentage < s[0].percentage {
      InsertSorted(x, s[1..]);
      InsertPermutes(x, s[1..]);
      var rest := Insert(x, s[1..]);
      var r := [s[0]] + rest;
      forall j | 0 < j < |r|
        ensures s[0].percentage >= r[j].percentage
      {
        assert r[j] == rest[j - 1];
        assert rest[j - 1] in multiset(rest);
        if rest[j - 1] != x {
          assert rest[j - 1] in multiset(s[1..]);
          var k :| 0 <= k < |s[1..]| && s[1..][k] == rest[j - 1];
          assert s[k + 1] == r[j];
        }
      }
    }
  }

  /** No repositories, or none with a language, give an empty histogram. */
  lemma TopLanguagesEmpty(repos: seq<Repo>)
    ensures (forall r :: r in repos ==> !HasLanguage(r)) ==> TopLanguages(repos) == []
    ensures |repos| == 0 ==> TopLanguages(repos) == []
  {
    if |repos| > 0 && forall r :: r in repos ==> !HasLanguage(r) {
      var langs := KnownLanguages(repos);
      if |langs| > 0 {
        assert langs[0] in langs;
      }
    }
  }

  /** Languages ["JS", "JS", "Py"] give JS 67% first, then Py 33%. */
  lemma TopLanguagesExample()
    ensures TopLanguages([Repo("a", Some("JS"), 0), Repo("b", Some("JS"), 0), Repo("c", Some("Py"), 0)])
      == [LanguageShare("JS", 67, DefaultColor), LanguageShare("Py", 33, DefaultColor)]
  {
    var repos := [Repo("a", Some("JS"), 0), Repo("b", Some("JS"), 0), Repo("c", Some("Py"), 0)];
    var langs := ["JS", "JS", "Py"];
    assert KnownLanguages(repos) == langs;
    assert langs[..2] == ["JS", "JS"];
    assert ["JS", "JS"][..1] == ["JS"];
    assert ["JS"][..0] == [];
    assert CountLanguages(["JS"]) == [Tally("JS", 1)];
    assert CountLanguages(["JS", "JS"]) == [Tally("JS", 2)];
    assert CountLanguages(langs) == Bump(CountLanguages(["JS", "JS"]), "Py");
    assert CountLanguages(langs) == [Tally("JS", 2), Tally("Py", 1)];
    assert RoundedPercent(2, 3) == 67;
    assert RoundedPercent(1, 3) == 33;
    var shares := Shares([Tally("JS", 2), Tally("Py", 1)], 3);
    assert shares == [LanguageShare("JS", 67, DefaultColor), LanguageShare("Py", 33, DefaultColor)];
  }
}
