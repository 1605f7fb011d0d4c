/** The projects section: the category filter over the static project list,
    the "no projects" message, the icon fallback and the optional demo link. */
module Projects {
  import opened Basics

  /** The fields of a project the section's logic reads. `icon` and `demo`
      are absent from every shipped project. */
  datatype Project = Project(id: nat, title: string, category: string, icon: Option<string>, demo: Option<string>)

  /** The shipped project list, in order. */
  const ShippedProjects: seq<Project> := [
    Project(1, "Dentiste Site Web", "frontend", None, None),
    Project(2, "Flutter Full Project", "mobile", None, None),
    Project(3, "Weather Map App", "mobile", None, None),
    Project(4, "News App", "mobile", None, None),
    Project(5, "Formateur Management", "fullstack", None, None),
    Project(6, "Tracksol", "fullstack", None, None),
    Project(7, "Email Sender API", "backend", None, None),
    Project(8, "Rate Limiter", "backend", None, None),
    Project(9, "App Sqlite TP", "mobile", None, None)
  ]

  const All := "all"

  /** The ids of the filter buttons, in display order. */
  const CategoryIds: seq<string> := [All, "frontend", "fullstack", "mobile", "backend"]

  /** The filter state starts at 'all'. */
  const InitialFilter := All

  /** A button click sets the filter to the button's id. */
  function ClickCategory(filter: string, buttonId: string): (r: string)
    ensures r == buttonId
  {
    buttonId
  }

  /** `s` is obtained from `t` by deleting elements. */
  predicate IsSubsequence<T(==)>(s: seq<T>, t: seq<T>)
    decreases |t|
  {
    |s| == 0 || (|t| > 0 && (if s[0] == t[0] then IsSubsequence(s[1..], t[1..]) else IsSubsequence(s, t[1..])))
  }

  /** `projects.filter(project => project.category === filter)`. */
  function InCategory(ps: seq<Project>, category: string): (r: seq<Project>)
    ensures |r| <= |ps|
    ensures forall p :: p in r <==> p in ps && p.category == category
    ensures forall p :: multiset(r)[p] == if p.category == category then multiset(ps)[p] else 0
    ensures IsSubsequence(r, ps)
    decreases |ps|
  {
    if |ps| == 0 then []
    else
      var rest := InCategory(ps[1..], category);
      assert ps == [ps[0]] + ps[1..];
      if ps[0].category == category then
        assert ([ps[0]] + rest)[1..] == rest;
        [ps[0]] + rest
      else rest
  }

  /** `filteredProjects`: everything for 'all', otherwise the projects of the
      chosen category in their original order. */
  function FilteredProjects(filter: string, ps: seq<Project>): (r: seq<Project>)
    ensures filter == All ==> r == ps
    ensures filter != All ==> forall p :: p in r <==> p in ps && p.category == filter
    ensures filter != All ==> forall p :: multiset(r)[p] == if p.category == filter then multiset(ps)[p] else 0
    ensures IsSubsequence(r, ps)
  {
    if filter == All then
      SubsequenceRefl(ps);
      ps
    else InCategory(ps, filter)
  }

  lemma {:induction false} SubsequenceRefl<T>(s: seq<T>)
    ensures IsSubsequence(s, s)
    decreases |s|
  {
    if |s| > 0 {
      SubsequenceRefl(s[1..]);
    }
  }

  /** Filtering a filtered list again changes nothing. */
  lemma {:induction false} FilterIdempotent(filter: string, ps: seq<Project>)
    ensures FilteredProjects(filter, FilteredProjects(filter, ps)) == FilteredProjects(filter, ps)
  {
    if filter != All {
      InCategoryKeepsMatching(InCategory(ps, filter), filter);
    }
  }

  /** A list whose projects all have the category is its own filter. */
  lemma {:induction false} InCategoryKeepsMatching(ps: seq<Project>, category: string)
    requires forall p :: p in ps ==> p.category == category
    ensures InCategory(ps, category) == ps
    decreases |ps|
  {
    if |ps| > 0 {
      assert ps[0] in ps;
      forall p | p in ps[1..]
        ensures p.category == category
      {
        assert p in ps;
      }
      InCategoryKeepsMatching(ps[1..], category);
      assert ps == [ps[0]] + ps[1..];
    }
  }

  /** The "no projects" message is shown iff the filtered list is empty. */
  predicate ShowsNoProjectsMessage(filter: string, ps: seq<Project>) {
    |FilteredProjects(filter, ps)| == 0
  }

  /** Every filter whose id is not a category of some project gets the
      message; the others do not. */
  lemma NoProjectsMessageIff(filter: string, ps: seq<Project>)
    ensures ShowsNoProjectsMessage(filter, ps) <==>
      (filter == All && |ps| == 0) || (filter != All && forall p :: p in ps ==> p.category != filter)
  {
    var r := FilteredProjects(filter, ps);
    if filter != All && |r| > 0 {
      assert r[0] in r;
    }
    if filter == All || |r| == 0 {
    }
  }

  /** The projects of one category, counted. */
  function CountIn(ps: seq<Project>, category: string): nat {
    |InCategory(ps, category)|
  }

  /** Putting a project in front adds it to its own category's filter only. */
  lemma InCategoryCons(p: Project, ps: seq<Project>, category: string)
    ensures CountIn([p] + ps, category) == CountIn(ps, category) + (if p.category == category then 1 else 0)
  {
    assert ([p] + ps)[1..] == ps;
  }

  /** Sum over `categories` of the number of projects in each. */
  function SumCounts(ps: seq<Project>, categories: seq<string>): nat
    decreases |categories|
  {
    if |categories| == 0 then 0 else CountIn(ps, categories[0]) + SumCounts(ps, categories[1..])
  }

  lemma {:induction false} SumCountsCons(p: Project, ps: seq<Project>, categories: seq<string>)
    requires forall i, j :: 0 <= i < j < |categories| ==> categories[i] != categories[j]
    ensures SumCounts([p] + ps, categories) == SumCounts(ps, categories) + (if p.category in categories then 1 else 0)
    decreases |categories|
  {
    if |categories| > 0 {
      InCategoryCons(p, ps, categories[0]);
      SumCountsCons(p, ps, categories[1..]);
      if p.category == categories[0] {
        assert p.category !in categories[1..];
      } else {
        assert p.category in categories <==> p.category in categories[1..];
      }
    }
  }

  /** When every project belongs to one of the listed (distinct) categories,
      the per-category filters together hold every project exactly once. */
  lemma {:induction false} CategoriesPartition(ps: seq<Project>, categories: seq<string>)
    requires forall p :: p in ps ==> p.category in categories
    requires forall i, j :: 0 <= i < j < |categories| ==> categories[i] != categories[j]
    ensures SumCounts(ps, categories) == |ps|
    decreases |ps|
  {
    if |ps| == 0 {
      SumCountsEmpty(categories);
    } else {
      assert ps == [ps[0]] + ps[1..];
      assert forall p :: p in ps[1..] ==> p in ps;
      CategoriesPartition(ps[1..], categories);
      SumCountsCons(ps[0], ps[1..], categories);
    }
  }

  lemma {:induction false} SumCountsEmpty(categories: seq<string>)
    ensures SumCounts([], categories) == 0
    decreases |categories|
  {
    if |categories| > 0 {
      SumCountsEmpty(categories[1..]);
    }
  }

  /** Every shipped project belongs to one of the four non-'all' categories. */
  lemma ShippedCategories()
    ensures forall p :: p in ShippedProjects ==> p.category in CategoryIds[1..]
  {
    var cats := CategoryIds[1..];
    assert cats == ["frontend", "fullstack", "mobile", "backend"];
    forall p | p in ShippedProjects
      ensures p.category in cats
    {
      var k :| 0 <= k < |ShippedProjects| && ShippedProjects[k] == p;
    }
  }

  /** With the shipped data the four non-'all' filters cover every project
      and lose none. */
  lemma ShippedCategoriesCoverAll()
    ensures SumCounts(ShippedProjects, CategoryIds[1..]) == |ShippedProjects|
  {
    ShippedCategories();
    CategoriesPartition(ShippedProjects, CategoryIds[1..]);
  }

  /** With the shipped data the "no projects" message is shown for exactly
      the ids that are not filter buttons, so never after a button click. */
  lemma ShippedNoProjectsMessage(filter: string)
    ensures ShowsNoProjectsMessage(filter, ShippedProjects) <==> filter !in CategoryIds
  {
    if filter == All {
      assert FilteredProjects(filter, ShippedProjects) == ShippedProjects;
    } else if filter in CategoryIds {
      ShippedCategoryShown(filter);
    } else {
      ShippedCategories();
      NoProjectsMessageIff(filter, ShippedProjects);
    }
  }

  /** Each filter button's category has a shipped project. */
  lemma ShippedCategoryShown(filter: string)
    requires filter in CategoryIds && filter != All
    ensures !ShowsNoProjectsMessage(filter, ShippedProjects)
  {
    assert filter in CategoryIds[1..];
    var k: nat :| k < |ShippedProjects| && ShippedProjects[k].category == filter by {
      if filter == "frontend" {
        assert ShippedProjects[0].category == filter;
      } else if filter == "mobile" {
        assert ShippedProjects[1].category == filter;
      } else if filter == "fullstack" {
        assert ShippedProjects[4].category == filter;
      } else {
        assert ShippedProjects[6].category == filter;
      }
    }
    ShownWhenPresent(filter, ShippedProjects, k);
  }

  /** A project of the chosen category keeps the message away. */
  lemma ShownWhenPresent(filter: string, ps: seq<Project>, k: nat)
    requires filter != All && k < |ps| && ps[k].category == filter
    ensures !ShowsNoProjectsMessage(filter, ps)
  {
    assert ps[k] in ps;
    assert ps[k] in FilteredProjects(filter, ps);
  }

  const FallbackIcon := "FaTasks"

  /** The icon names the section knows. */
  const IconNames: set<string> := {
    "FaTooth", "SiFlutter", "FaCloudSun", "FaRegNewspaper", "FaChalkboardTeacher",
    "FaTasks", "FaPaperPlane", "FaShieldAlt", "FaDatabase"
  }

  /** `iconMap[project.icon] || FaTasks`: a known icon name is used as is,
      an absent or unknown one falls back to FaTasks. */
  function IconFor(p: Project): (icon: string)
    ensures icon in IconNames
    ensures p.icon.Some? && p.icon.value in IconNames ==> icon == p.icon.value
    ensures p.icon.None? || p.icon.value !in IconNames ==> icon == FallbackIcon
  {
    if p.icon.Some? && p.icon.value in IconNames then p.icon.value else FallbackIcon
  }

  /** The demo link renders only when `demo` is present and non-empty. */
  predicate ShowsDemoLink(p: Project) {
    p.demo.Some? && p.demo.value != ""
  }

  /** No shipped project names an icon or a demo: all show FaTasks and none
      shows a demo link. */
  lemma ShippedIconsAndDemos()
    ensures forall p :: p in ShippedProjects ==> IconFor(p) == FallbackIcon && !ShowsDemoLink(p)
  {
  }
}
