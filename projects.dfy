/**
 * The project gallery of the Projects component
 * (src/components/Projects.tsx:195-271, 285-289): a static list of projects,
 * a list of category buttons, and the active filter that selects which
 * projects are shown.
 */
module Projects {

  /** A project card; the description, emoji, technology tags and links are left out. */
  datatype Project = Project(id: nat, title: string, category: string)

  const AllCategory := "All"

  const ProjectList: seq<Project> := [
    Project(1, "ML-Powered E-Commerce Platform", "Full Stack"),
    Project(2, "Data Science Dashboard", "Data Science"),
    Project(3, "Weather Prediction ML Model", "Machine Learning"),
    Project(4, "Smart Task Management AI", "Machine Learning"),
    Project(5, "Portfolio Website", "Frontend"),
    Project(6, "Real-time Analytics Platform", "Data Science")
  ]

  const Categories: seq<string> :=
    ["All", "Frontend", "Backend", "Full Stack", "Data Science", "Machine Learning"]

  /** `xs` is `ys` with some elements dropped, order kept. */
  ghost predicate IsSubsequence<T>(xs: seq<T>, ys: seq<T>)
    decreases |ys|
  {
    if xs == [] then true
    else if ys == [] then false
    else if xs[0] == ys[0] then IsSubsequence(xs[1..], ys[1..])
    else IsSubsequence(xs, ys[1..])
  }

  /** How many projects have the given category. */
  function CountIn(ps: seq<Project>, c: string): nat {
    if ps == [] then 0 else (if ps[0].category == c then 1 else 0) + CountIn(ps[1..], c)
  }

  /**
   * `projects.filter((project) => project.category === c)`: exactly the
   * projects of category `c`, in their original order.
   */
  function WithCategory(ps: seq<Project>, c: string): (r: seq<Project>)
    ensures IsSubsequence(r, ps)
    ensures forall i :: 0 <= i < |r| ==> r[i].category == c
    ensures |r| == CountIn(ps, c)
  {
    if ps == [] then []
    else if ps[0].category == c then [ps[0]] + WithCategory(ps[1..], c)
    else WithCategory(ps[1..], c)
  }

  /** No project of category `c` is dropped by the filter. */
  lemma {:induction false} WithCategoryKeepsMatches(ps: seq<Project>, c: string, p: Project)
    requires p in ps && p.category == c
    ensures p in WithCategory(ps, c)
    decreases |ps|
  {
    if ps[0] != p {
      WithCategoryKeepsMatches(ps[1..], c, p);
    }
  }

  /** `filteredProjects`: everything for "All", otherwise one category. */
  function FilterProjects(ps: seq<Project>, filter: string): (r: seq<Project>)
    ensures filter == AllCategory ==> r == ps
    ensures filter != AllCategory ==> r == WithCategory(ps, filter)
    ensures IsSubsequence(r, ps) && |r| <= |ps|
  {
    SubsequenceReflexive(ps);
    if filter == AllCategory then ps
    else
      SubsequenceNoLonger(WithCategory(ps, filter), ps);
      WithCategory(ps, filter)
  }

  lemma {:induction false} SubsequenceReflexive<T>(xs: seq<T>)
    ensures IsSubsequence(xs, xs)
    decreases |xs|
  {
    if xs != [] { SubsequenceReflexive(xs[1..]); }
  }

  lemma {:induction false} SubsequenceNoLonger<T>(xs: seq<T>, ys: seq<T>)
    requires IsSubsequence(xs, ys)
    ensures |xs| <= |ys|
    decreases |ys|
  {
    if xs != [] && ys != [] {
      if xs[0] == ys[0] {
        SubsequenceNoLonger(xs[1..], ys[1..]);
      } else {
        SubsequenceNoLonger(xs, ys[1..]);
      }
    }
  }

  /** The sum of the counts over a list of categories. */
  function CountAll(ps: seq<Project>, cs: seq<string>): nat {
    if cs == [] then 0 else CountIn(ps, cs[0]) + CountAll(ps, cs[1..])
  }

  /**
   * When every project's category occurs exactly once in `cs`, the
   * categories of `cs` split the projects: the counts add up to the whole.
   */
  lemma {:induction false} CategoriesPartition(ps: seq<Project>, cs: seq<string>)
    requires forall i, j :: 0 <= i < j < |cs| ==> cs[i] != cs[j]
    requires forall p :: p in ps ==> p.category in cs
    ensures CountAll(ps, cs) == |ps|
    decreases |ps|
  {
    if ps == [] {
      CountAllEmpty(cs);
    } else {
      CategoriesPartition(ps[1..], cs);
      CountAllCons(ps[0], ps[1..], cs);
      assert ps == [ps[0]] + ps[1..];
      IndicatorSum(ps[0].category, cs);
    }
  }

  lemma {:induction false} CountAllEmpty(cs: seq<string>)
    ensures CountAll([], cs) == 0
    decreases |cs|
  {
    if cs != [] { CountAllEmpty(cs[1..]); }
  }

  /** How often `c` occurs in `cs`. */
  function Occurrences(c: string, cs: seq<string>): nat {
    if cs == [] then 0 else (if cs[0] == c then 1 else 0) + Occurrences(c, cs[1..])
  }

  lemma {:induction false} CountAllCons(p: Project, ps: seq<Project>, cs: seq<string>)
    ensures CountAll([p] + ps, cs) == Occurrences(p.category, cs) + CountAll(ps, cs)
    decreases |cs|
  {
    assert ([p] + ps)[0] == p && ([p] + ps)[1..] == ps;
    if cs != [] { CountAllCons(p, ps, cs[1..]); }
  }

  lemma {:induction false} IndicatorSum(c: string, cs: seq<string>)
    requires forall i, j :: 0 <= i < j < |cs| ==> cs[i] != cs[j]
    requires c in cs
    ensures Occurrences(c, cs) == 1
    decreases |cs|
  {
    if cs[0] == c {
      NotOccurring(c, cs[1..]);
    } else {
      IndicatorSum(c, cs[1..]);
    }
  }

  lemma {:induction false} NotOccurring(c: string, cs: seq<string>)
    requires c !in cs
    ensures Occurrences(c, cs) == 0
    decreases |cs|
  {
    if cs != [] { NotOccurring(c, cs[1..]); }
  }

  /** Every project's category is one of the buttons other than "All". */
  lemma CategoriesCoverProjects()
    ensures forall p :: p in ProjectList ==> p.category in Categories[1..]
  {
    var cs := Categories[1..];
    assert cs == ["Frontend", "Backend", "Full Stack", "Data Science", "Machine Learning"];
    forall p | p in ProjectList ensures p.category in cs {
      var k :| 0 <= k < |ProjectList| && ProjectList[k] == p;
      assert p.category == cs[2] || p.category == cs[3] || p.category == cs[4] || p.category == cs[0];
    }
  }

  /** The category buttons split the six projects among themselves. */
  lemma FiltersPartitionGallery()
    ensures CountAll(ProjectList, Categories[1..]) == |ProjectList| == 6
  {
    var cs := Categories[1..];
    CategoriesCoverProjects();
    forall i, j | 0 <= i < j < |cs| ensures cs[i] != cs[j] {
      assert cs[i] == Categories[i + 1] && cs[j] == Categories[j + 1];
    }
    CategoriesPartition(ProjectList, cs);
  }

  /** The ids, used as render keys, are distinct. */
  lemma ProjectIdsDistinct()
    ensures forall i, j :: 0 <= i < j < |ProjectList| ==> ProjectList[i].id != ProjectList[j].id
  {
  }

  /** No project is in "Backend". */
  lemma BackendIsEmpty()
    ensures FilterProjects(ProjectList, "Backend") == []
  {
    var ps := ProjectList;
    assert CountIn(ps[5..], "Backend") == 0;
    assert CountIn(ps[3..], "Backend") == 0;
    assert CountIn(ps, "Backend") == 0;
  }

  class Gallery {
    var activeFilter: string

    ghost predicate Valid()
      reads this
    {
      activeFilter in Categories
    }

    constructor ()
      ensures Valid() && activeFilter == AllCategory
    {
      activeFilter := AllCategory;
    }

    /** A click on the button of `category`, one of `Categories`. */
    method SelectFilter(category: string)
      requires category in Categories
      modifies this
      ensures Valid() && activeFilter == category
    {
      activeFilter := category;
    }

    /** The projects shown: at most the six of the list, in list order. */
    function Shown(): (r: seq<Project>)
      reads this
      ensures IsSubsequence(r, ProjectList) && |r| <= 6
      ensures forall i :: 0 <= i < |r| ==>
        activeFilter == AllCategory || r[i].category == activeFilter
    {
      FilterProjects(ProjectList, activeFilter)
    }
  }
}
