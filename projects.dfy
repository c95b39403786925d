/**
 * The portfolio filter of `ProjectsSection`: a fixed list of projects, a row of
 * category buttons, and an effect that recomputes the shown projects from the
 * original list whenever the selected category changes.
 */
module Projects {

  /** A portfolio entry; only the fields the filter and the list keys read are kept. */
  datatype Project = Project(id: int, title: string, category: string)

  /** The portfolio, in display order. */
  const AllProjects: seq<Project> := [
    Project(1, "Modern E-commerce Platform", "Web Development"),
    Project(2, "Financial Services Rebrand", "Branding"),
    Project(3, "Healthcare Mobile App", "App Development"),
    Project(4, "Real Estate Marketing Campaign", "Marketing"),
    Project(5, "Restaurant Booking System", "Web Development"),
    Project(6, "Fitness Brand Identity", "Branding")
  ]

  /** The selector that shows every project. */
  const AllCategory := "All"

  /** The filter buttons, in display order. */
  const Categories: seq<string> :=
    [AllCategory, "Web Development", "Branding", "App Development", "Marketing"]

  /** `r` is `s` with some elements left out, the rest kept in order. */
  predicate Subsequence<T(==)>(r: seq<T>, s: seq<T>)
    decreases |s|
  {
    if r == [] then true
    else if s == [] then false
    else (r[0] == s[0] && Subsequence(r[1..], s[1..])) || Subsequence(r, s[1..])
  }

  /**
   * `ps.filter(p => p.category === c)`: the projects of category `c`, in their
   * original order, each as often as it occurs in `ps`, and nothing else.
   */
  function Keep(ps: seq<Project>, c: string): (r: seq<Project>)
    ensures Subsequence(r, ps)
    ensures forall p :: multiset(r)[p] == if p.category == c then multiset(ps)[p] else 0
    ensures forall p :: p in r <==> p in ps && p.category == c
  {
    if ps == [] then []
    else
      var rest := Keep(ps[1..], c);
      assert ps == [ps[0]] + ps[1..];
      if ps[0].category == c then [ps[0]] + rest else rest
  }

  /** Every list is a subsequence of itself. */
  lemma {:induction false} SubsequenceReflexive<T>(s: seq<T>)
    ensures Subsequence(s, s)
    decreases |s|
  {
    if s != [] {
      SubsequenceReflexive(s[1..]);
    }
  }

  /** The projects shown for `filter`: all of them for "All", otherwise that category's. */
  function FilterProjects(filter: string): (r: seq<Project>)
    ensures Subsequence(r, AllProjects)
    ensures filter == AllCategory ==> r == AllProjects
    ensures filter != AllCategory ==> forall p :: p in r <==> p in AllProjects && p.category == filter
  {
    if filter == AllCategory then
      SubsequenceReflexive(AllProjects);
      AllProjects
    else
      Keep(AllProjects, filter)
  }

  /** "All" is not a category of any project: filtering by it literally would show nothing. */
  lemma AllNeedsItsOwnCase()
    ensures Keep(AllProjects, AllCategory) == []
    ensures FilterProjects(AllCategory) == AllProjects
  {
  }

  /** "Marketing" shows the one marketing project. */
  lemma MarketingShowsOne()
    ensures FilterProjects("Marketing") == [AllProjects[3]]
  {
    var ps, c := AllProjects, "Marketing";
    assert Keep(ps[6..], c) == [];
    assert Keep(ps[5..], c) == [] by { assert ps[5..][1..] == ps[6..]; }
    assert Keep(ps[4..], c) == [] by { assert ps[4..][1..] == ps[5..]; }
    assert Keep(ps[3..], c) == [ps[3]] by { assert ps[3..][1..] == ps[4..]; }
    assert Keep(ps[2..], c) == [ps[3]] by { assert ps[2..][1..] == ps[3..]; }
    assert Keep(ps[1..], c) == [ps[3]] by { assert ps[1..][1..] == ps[2..]; }
  }

  /** A category that no project carries shows an empty grid. */
  lemma AbsentCategoryShowsNothing(c: string)
    requires c != AllCategory
    requires forall p | p in AllProjects :: p.category != c
    ensures FilterProjects(c) == []
  {
  }

  /** The filter button for `Categories[i]` is highlighted when it is the selected filter. */
  predicate ButtonHighlighted(filter: string, i: int)
    requires 0 <= i < |Categories|
  {
    filter == Categories[i]
  }

  /** The category labels are distinct, so after a click exactly the clicked button is highlighted. */
  lemma ClickedButtonOnlyHighlighted(i: int)
    requires 0 <= i < |Categories|
    ensures forall j | 0 <= j < |Categories| :: ButtonHighlighted(Categories[i], j) <==> j == i
  {
  }

  /** The filter component's state slots, as fields. */
  class ProjectsSection {
    /** The `filter` state slot. */
    var filter: string
    /** The `filteredProjects` state slot. */
    var filteredProjects: seq<Project>
    /** Whether the `[filter]` effect has yet to run after the last change of `filter`. */
    var effectPending: bool

    /** Once the effect has run, the shown projects are exactly those of the selected filter. */
    ghost predicate Valid()
      reads this
    {
      !effectPending ==> filteredProjects == FilterProjects(filter)
    }

    /** Mount: "All" selected and the whole list shown; the mount run of the effect is due. */
    constructor()
      ensures Valid()
      ensures filter == AllCategory && filteredProjects == AllProjects && effectPending
      ensures filteredProjects == FilterProjects(filter)
    {
      filter := AllCategory;
      filteredProjects := AllProjects;
      effectPending := true;
    }

    /**
     * A click on button `i`: `setFilter(categories[i])`. A new value schedules the
     * effect; the grid still shows the previous projects until it runs. The same
     * value changes nothing.
     */
    method ClickCategory(i: int)
      requires Valid()
      requires 0 <= i < |Categories|
      modifies this`filter, this`effectPending
      ensures Valid()
      ensures filter == Categories[i]
      ensures old(filter) == Categories[i] ==> unchanged(this)
      ensures old(filter) != Categories[i] ==> effectPending
    {
      if filter != Categories[i] {
        filter := Categories[i];
        effectPending := true;
      }
    }

    /** The `[filter]` effect: the list is recomputed from the original projects. */
    method RunFilterEffect()
      requires Valid() && effectPending
      modifies this`filteredProjects, this`effectPending
      ensures Valid()
      ensures !effectPending
      ensures filteredProjects == FilterProjects(filter)
    {
      filteredProjects := FilterProjects(filter);
      effectPending := false;
    }
  }

  /** Once the grid is up to date, picking the selected category again changes nothing. */
  method Reselect(c: ProjectsSection, i: int)
    requires c.Valid() && !c.effectPending
    requires 0 <= i < |Categories| && c.filter == Categories[i]
    modifies c`filter, c`effectPending
    ensures unchanged(c)
    ensures c.filteredProjects == FilterProjects(Categories[i])
  {
    c.ClickCategory(i);
  }

  /** From any state, the "All" button followed by its effect shows the whole list again. */
  method BackToAll(c: ProjectsSection)
    requires c.Valid()
    modifies c
    ensures c.filter == AllCategory && c.filteredProjects == AllProjects
  {
    c.ClickCategory(0);
    if c.effectPending {
      c.RunFilterEffect();
    }
  }
}
