/**
  The project-detail page: three state cells (project, loading, error), the fetch that
  updates them, the choice of what to show, and the rendering of a loaded project.
  The HTTP request enters as a `FetchResult` value.
 */
module ProjectDetails {

  import opened Options
  import JsText

  datatype Project = Project(
    id: string,
    title: string,
    description: string,
    tags: seq<string>,
    category: string,
    images: seq<string>,
    problem: Option<string>,
    solution: Option<string>,
    link: Option<string>)

  const FETCH_FAILED := "\U{274C} Failed to fetch project details."
  const NOT_FOUND := "Project not found."
  const NO_PROBLEM := "No problem specified."
  const NO_SOLUTION := "No solution specified."
  const TAG_SEPARATOR := ", "

  /** What the request for `/uploads/{id}` came to: a 2xx response whose `data` field is a project
      or missing (a body that is not JSON arrives as text, without that field), or a rejection:
      a network failure, a non-2xx status, or a JSON `null` body, on which reading `data` throws. */
  datatype FetchResult = Resolved(data: Option<Project>) | Rejected

  /** The values of the three state cells. */
  datatype Cells = Cells(project: Option<Project>, loading: bool, error: string)

  const INITIAL := Cells(None, true, "")

  /** The state after one run of the fetch: the `try` sets the project or the `catch` sets
      the error, and the `finally` clears `loading`. */
  function AfterFetch(c: Cells, r: FetchResult): (d: Cells)
    ensures !d.loading
    ensures r.Resolved? ==> d.project == r.data && d.error == c.error
    ensures r.Rejected? ==> d.project == c.project && d.error == FETCH_FAILED
  {
    match r
    case Resolved(data) => Cells(data, false, c.error)
    case Rejected => Cells(c.project, false, FETCH_FAILED)
  }

  /** The state after a fetch per identifier the route has held, oldest first. */
  function AfterFetches(c: Cells, rs: seq<FetchResult>): Cells
    decreases |rs|
  {
    if rs == [] then c else AfterFetches(AfterFetch(c, rs[0]), rs[1..])
  }

  /** The project of the last resolved fetch in rs, or `fallback` if none resolved. */
  function LastResolved(rs: seq<FetchResult>, fallback: Option<Project>): Option<Project>
    decreases |rs|
  {
    if rs == [] then fallback
    else if rs[|rs| - 1].Resolved? then rs[|rs| - 1].data
    else LastResolved(rs[..|rs| - 1], fallback)
  }

  /** A display image: its source URL and its alt text. */
  datatype Figure = Figure(src: string, alt: string)

  /** What the loaded view shows. */
  datatype Page = Page(
    title: string,
    category: string,
    tags: string,
    link: Option<string>,
    problem: string,
    solution: string,
    figures: seq<Figure>)

  datatype View = Loading | Error(message: string) | NotFound | Loaded(page: Page)

  /** `${title} - Image ${index + 1}` */
  function AltText(title: string, index: nat): string {
    title + " - Image " + JsText.DecimalString(index + 1)
  }

  /** `project.images.map(...)` from position `from` on: the images in order, each with the
      alt text of its absolute position. */
  function FiguresFrom(title: string, images: seq<string>, from: nat): (fs: seq<Figure>)
    ensures |fs| == |images|
    ensures forall i :: 0 <= i < |images| ==> fs[i] == Figure(images[i], AltText(title, from + i))
    decreases |images|
  {
    if images == [] then []
    else [Figure(images[0], AltText(title, from))] + FiguresFrom(title, images[1..], from + 1)
  }

  function ProblemText(p: Project): (s: string)
    ensures s != ""
    ensures JsText.Truthy(p.problem) ==> s == p.problem.value
    ensures !JsText.Truthy(p.problem) ==> s == NO_PROBLEM
  {
    JsText.OrElse(p.problem, NO_PROBLEM)
  }

  function SolutionText(p: Project): (s: string)
    ensures s != ""
    ensures JsText.Truthy(p.solution) ==> s == p.solution.value
    ensures !JsText.Truthy(p.solution) ==> s == NO_SOLUTION
  {
    JsText.OrElse(p.solution, NO_SOLUTION)
  }

  /** The loaded view of p. */
  function Render(p: Project): (pg: Page)
    ensures pg.title == p.title && pg.category == p.category && pg.link == p.link
    ensures |pg.figures| == |p.images|
    ensures forall i :: 0 <= i < |p.images| ==> pg.figures[i] == Figure(p.images[i], AltText(p.title, i))
    ensures pg.tags == JsText.Join(p.tags, TAG_SEPARATOR) && (p.tags == [] ==> pg.tags == "")
    ensures pg.problem == ProblemText(p) && pg.solution == SolutionText(p)
  {
    Page(p.title, p.category, JsText.Join(p.tags, TAG_SEPARATOR), p.link,
      ProblemText(p), SolutionText(p), FiguresFrom(p.title, p.images, 0))
  }

  /** The component's choice of view, in priority order: loading, then error, then a
      missing project, then the project itself. */
  function SelectView(c: Cells): (v: View)
    ensures v.Loading? <==> c.loading
    ensures v.Error? <==> !c.loading && c.error != ""
    ensures v.Error? ==> v.message == c.error
    ensures v.NotFound? <==> !c.loading && c.error == "" && c.project.None?
    ensures v.Loaded? <==> !c.loading && c.error == "" && c.project.Some?
    ensures v.Loaded? ==> v.page == Render(c.project.value)
  {
    if c.loading then Loading
    else if c.error != "" then Error(JsText.OrElse(Some(c.error), NOT_FOUND))
    else if c.project.None? then NotFound
    else Loaded(Render(c.project.value))
  }

  /** The tags line lists every tag verbatim, in order, separated by ", ": tag i sits at its
      offset, tag i + 1 starts after it and a separator, and nothing else is added. */
  lemma TagsInOrder(p: Project, i: nat)
    requires i < |p.tags|
    ensures var line := Render(p).tags;
      var o := JsText.Offset(p.tags, TAG_SEPARATOR, i);
      && o + |p.tags[i]| <= |line|
      && line[o..o + |p.tags[i]|] == p.tags[i]
      && (i + 1 < |p.tags| ==>
            JsText.Offset(p.tags, TAG_SEPARATOR, i + 1) == o + |p.tags[i]| + 2 <= |line|
            && line[o + |p.tags[i]|..o + |p.tags[i]| + 2] == TAG_SEPARATOR)
      && (i + 1 == |p.tags| ==> |line| == o + |p.tags[i]|)
  {
    JsText.JoinPartAt(p.tags, TAG_SEPARATOR, i);
    if i + 1 < |p.tags| {
      JsText.JoinSeparatorAt(p.tags, TAG_SEPARATOR, i + 1);
    } else {
      JsText.JoinLength(p.tags, TAG_SEPARATOR);
    }
  }

  /** Alt texts of different images differ. */
  lemma AltTextsDistinct(title: string, i: nat, j: nat)
    requires i != j
    ensures AltText(title, i) != AltText(title, j)
  {
    var prefix := title + " - Image ";
    var a := JsText.DecimalString(i + 1);
    var b := JsText.DecimalString(j + 1);
    if AltText(title, i) == AltText(title, j) {
      assert (prefix + a)[|prefix|..] == a;
      assert (prefix + b)[|prefix|..] == b;
      JsText.DecimalInjective(i + 1, j + 1);
    }
  }

  /** The page starts out loading. */
  lemma InitialView()
    ensures SelectView(INITIAL) == Loading
  {
  }

  /** Fetches never set `loading` back, only ever write the failure message into `error`,
      never clear it, and leave the project of the last successful fetch. */
  lemma {:induction false} FetchesOutcome(c: Cells, rs: seq<FetchResult>)
    ensures var d := AfterFetches(c, rs);
      && (rs != [] ==> !d.loading)
      && (rs == [] ==> d.loading == c.loading)
      && d.error == (if Rejected in rs then FETCH_FAILED else c.error)
      && d.project == LastResolved(rs, c.project)
    decreases |rs|
  {
    if rs != [] {
      var c' := AfterFetch(c, rs[0]);
      FetchesOutcome(c', rs[1..]);
      assert rs == [rs[0]] + rs[1..];
      LastResolvedCons(rs, c.project);
    }
  }

  lemma {:induction false} LastResolvedCons(rs: seq<FetchResult>, fallback: Option<Project>)
    requires rs != []
    ensures LastResolved(rs, fallback)
         == LastResolved(rs[1..], if rs[0].Resolved? then rs[0].data else fallback)
    decreases |rs|
  {
    if |rs| > 1 && !rs[|rs| - 1].Resolved? {
      assert rs[..|rs| - 1][1..] == rs[1..][..|rs[1..]| - 1];
      LastResolvedCons(rs[..|rs| - 1], fallback);
    }
  }

  /** From the initial state, one successful fetch shows the project, one failed fetch shows
      the failure message. */
  lemma FirstFetch(p: Project)
    ensures SelectView(AfterFetch(INITIAL, Resolved(Some(p)))) == Loaded(Render(p))
    ensures SelectView(AfterFetch(INITIAL, Resolved(None))) == NotFound
    ensures SelectView(AfterFetch(INITIAL, Rejected)) == Error(FETCH_FAILED)
  {
  }

  /** Once a fetch has failed, the page shows the failure message whatever later fetches
      return: it never reaches the loaded view. */
  lemma FailureIsSticky(rs: seq<FetchResult>)
    requires Rejected in rs
    ensures SelectView(AfterFetches(INITIAL, rs)) == Error(FETCH_FAILED)
  {
    FetchesOutcome(INITIAL, rs);
  }

  /** The component's state cells. */
  class ProjectDetailsView {

    var project: Option<Project>
    var loading: bool
    var error: string

    function State(): Cells
      reads this
    {
      Cells(project, loading, error)
    }

    constructor ()
      ensures State() == INITIAL
    {
      project := None;
      loading := true;
      error := "";
    }

    /** One run of `fetchProject` once its request has settled with r. */
    method FetchProject(r: FetchResult)
      modifies this
      ensures State() == AfterFetch(old(State()), r)
    {
      match r {
        case Resolved(data) =>
          project := data;
        case Rejected =>
          error := FETCH_FAILED;
      }
      loading := false;
    }
  }
}
