/**
  The portfolio section: a grid of projects filtered either by design
  category or by project, two tabs that switch between the two filters, and
  a PDF modal for the project whose View button was clicked.
 */
module Portfolio {
  import opened Seqs
  import opened Optional

  datatype Project = Project(title: string, category: string, project: string, image: string, pdfUrl: string)

  /** The two tabs: by design category and by project. */
  datatype FilterType = Design | ByProject

  /** The wildcard filter key that keeps every project. */
  const AllKey: string := "all"

  /** The category selected when the section first renders. */
  const InitialDesignFilter: string := "level design"

  /** The predicate of `data.projects.filter(...)`. */
  predicate Keeps(p: Project, filterType: FilterType, activeFilter: string, activeProjectFilter: string) {
    if filterType == Design then
      (if activeFilter == AllKey then true else p.category == activeFilter)
    else
      (if activeProjectFilter == AllKey then true else p.project == activeProjectFilter)
  }

  /**
    `filteredProjects`: under the design tab, every project for "all" and
    otherwise exactly the projects of the active category; under the project
    tab the same with the project filter and each project's `project`; in
    both cases in their original order.
   */
  function FilteredProjects(projects: seq<Project>, filterType: FilterType, activeFilter: string, activeProjectFilter: string): (r: seq<Project>)
    ensures filterType == Design && activeFilter == AllKey ==> r == projects
    ensures filterType == Design && activeFilter != AllKey ==>
      r == Filter(projects, (p: Project) => p.category == activeFilter)
    ensures filterType == ByProject && activeProjectFilter == AllKey ==> r == projects
    ensures filterType == ByProject && activeProjectFilter != AllKey ==>
      r == Filter(projects, (p: Project) => p.project == activeProjectFilter)
    ensures IsSubsequence(r, projects)
  {
    var keep := (p: Project) => Keeps(p, filterType, activeFilter, activeProjectFilter);
    if filterType == Design && activeFilter == AllKey then
      FilterKeepsAll(projects, keep);
      Filter(projects, keep)
    else if filterType == Design then
      FilterCongruent(projects, keep, (p: Project) => p.category == activeFilter);
      Filter(projects, keep)
    else if activeProjectFilter == AllKey then
      FilterKeepsAll(projects, keep);
      Filter(projects, keep)
    else
      FilterCongruent(projects, keep, (p: Project) => p.project == activeProjectFilter);
      Filter(projects, keep)
  }

  /** The filter of the tab that is not shown has no effect on the grid. */
  lemma InactiveFilterIrrelevant(projects: seq<Project>, activeFilter: string, activeProjectFilter: string, other: string)
    ensures FilteredProjects(projects, Design, activeFilter, activeProjectFilter)
         == FilteredProjects(projects, Design, activeFilter, other)
    ensures FilteredProjects(projects, ByProject, activeFilter, activeProjectFilter)
         == FilteredProjects(projects, ByProject, other, activeProjectFilter)
  {
  }

  /** Every project on screen is one of the projects whose field matches the active key. */
  lemma FilteredMembership(projects: seq<Project>, filterType: FilterType, activeFilter: string, activeProjectFilter: string, p: Project)
    ensures p in FilteredProjects(projects, filterType, activeFilter, activeProjectFilter) <==>
      p in projects && Keeps(p, filterType, activeFilter, activeProjectFilter)
  {
  }

  /** The section's hook state. */
  class PortfolioView {
    const projects: seq<Project>
    var filterType: FilterType
    var activeFilter: string
    var activeProjectFilter: string
    var selectedProject: Option<Project>

    /** The design tab, the "level design" category, the project filter at "all", no modal. */
    constructor(projects: seq<Project>)
      ensures this.projects == projects
      ensures filterType == Design && activeFilter == InitialDesignFilter
      ensures activeProjectFilter == AllKey && selectedProject == None
    {
      this.projects := projects;
      filterType := Design;
      activeFilter := InitialDesignFilter;
      activeProjectFilter := AllKey;
      selectedProject := None;
    }

    /** The projects on screen. */
    function Visible(): seq<Project>
      reads this
    {
      FilteredProjects(projects, filterType, activeFilter, activeProjectFilter)
    }

    /** The "카테고리별" (by category) tab: design mode, category filter back to "all". */
    method ClickDesignTab()
      modifies this
      ensures filterType == Design && activeFilter == AllKey
      ensures activeProjectFilter == old(activeProjectFilter) && selectedProject == old(selectedProject)
      ensures Visible() == projects
    {
      filterType := Design;
      activeFilter := AllKey;
    }

    /** The "프로젝트별" (by project) tab: project mode, project filter back to "all". */
    method ClickProjectTab()
      modifies this
      ensures filterType == ByProject && activeProjectFilter == AllKey
      ensures activeFilter == old(activeFilter) && selectedProject == old(selectedProject)
      ensures Visible() == projects
    {
      filterType := ByProject;
      activeProjectFilter := AllKey;
    }

    /** A category button changes the category filter and nothing else. */
    method ClickCategory(category: string)
      modifies this
      ensures activeFilter == category
      ensures filterType == old(filterType) && activeProjectFilter == old(activeProjectFilter)
      ensures selectedProject == old(selectedProject)
    {
      activeFilter := category;
    }

    /** A project logo changes the project filter and nothing else. */
    method ClickProjectLogo(project: string)
      modifies this
      ensures activeProjectFilter == project
      ensures filterType == old(filterType) && activeFilter == old(activeFilter)
      ensures selectedProject == old(selectedProject)
    {
      activeProjectFilter := project;
    }

    /** A card's View button opens that project's modal. */
    method ClickView(project: Project)
      modifies this
      ensures selectedProject == Some(project)
      ensures filterType == old(filterType) && activeFilter == old(activeFilter)
      ensures activeProjectFilter == old(activeProjectFilter)
    {
      selectedProject := Some(project);
    }

    /** The `keydown` listener: Escape closes an open modal; otherwise nothing changes. */
    method KeyDown(key: string)
      modifies this
      ensures key == "Escape" ==> selectedProject == None
      ensures key != "Escape" || old(selectedProject) == None ==> selectedProject == old(selectedProject)
      ensures filterType == old(filterType) && activeFilter == old(activeFilter)
      ensures activeProjectFilter == old(activeProjectFilter)
    {
      if key == "Escape" && selectedProject.Some? {
        selectedProject := None;
      }
    }

    /** A click on the dimmed backdrop closes the modal. */
    method ClickBackdrop()
      modifies this
      ensures selectedProject == None
      ensures filterType == old(filterType) && activeFilter == old(activeFilter)
      ensures activeProjectFilter == old(activeProjectFilter)
    {
      selectedProject := None;
    }

    /** A click inside the modal panel stops there and never reaches the backdrop. */
    method ClickPanel()
      ensures selectedProject == old(selectedProject)
    {
    }

    /** The X button closes the modal. */
    method ClickClose()
      modifies this
      ensures selectedProject == None
      ensures filterType == old(filterType) && activeFilter == old(activeFilter)
      ensures activeProjectFilter == old(activeProjectFilter)
    {
      selectedProject := None;
    }
  }
}
