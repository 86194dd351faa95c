/**
 * The projects page, in both versions: the list of project databases the
 * server reports, each shown under its name with ".db" removed and linked
 * to its own page; the newer version adds a button that downloads the
 * project's PDF. The page state is the pair of `useState` fields
 * `projects` and `error`, set by the fetch callback.
 */
module ProjectsPage {
  import opened Common
  import opened Text

  const ProjectsUrl := "http://127.0.0.1:80/projects"
  const FetchError := "Failed to fetch projects."
  const NoProjects := "No projects found."

  /** `project.replace(".db", "")`: the first ".db" anywhere in the name is removed. */
  function DisplayName(project: string): (name: string)
    ensures !Occurs(".db", project) ==> name == project
    ensures Occurs(".db", project) ==> |name| == |project| - 3
  {
    ReplaceFirst(project, ".db", "")
  }

  /** A name without ".db" is shown as it is. */
  lemma DisplayNameUnchanged(project: string)
    requires !Occurs(".db", project)
    ensures DisplayName(project) == project
  {
  }

  /**
   * ".db" cannot start inside `base` when `base` has none: its first
   * occurrence in `base + ".db" + rest` is the one after `base`, so that
   * one is removed, whatever `rest` holds (another ".db" included).
   */
  lemma DisplayNameFirst(base: string, rest: string)
    requires !Occurs(".db", base)
    ensures DisplayName(base + ".db" + rest) == base + rest
  {
    var s := base + ".db" + rest;
    var n := |base|;
    assert MatchAt(s, ".db", n) by {
      assert s[n..n + 3] == ".db";
    }
    forall k | 0 <= k < n
      ensures !MatchAt(s, ".db", k)
    {
      NoMatchInBase(base, rest, k);
    }
    assert IndexOf(s, ".db") == Some(n);
    assert s[..n] == base && s[n + 3..] == rest;
  }

  /** No ".db" starts at a position of `base`, in `base + ".db" + rest`, when `base` has none. */
  lemma NoMatchInBase(base: string, rest: string, k: nat)
    requires !Occurs(".db", base) && k < |base|
    ensures !MatchAt(base + ".db" + rest, ".db", k)
  {
    var s := base + ".db" + rest;
    var n := |base|;
    if k + 3 <= n {
      assert s[k..k + 3] == base[k..k + 3];
      assert !MatchAt(base, ".db", k);
    } else if k == n - 1 {
      assert s[k + 1] == '.';
      assert s[k..k + 3][1] == '.';
    } else {
      assert s[k + 2] == '.';
      assert s[k..k + 3][2] == '.';
    }
  }

  /** A database name the server lists, with no other ".db", is shown without its extension. */
  lemma ListedNameShown(project: string)
    requires EndsWith(project, ".db") && !Occurs(".db", project[..|project| - 3])
    ensures DisplayName(project) == project[..|project| - 3]
  {
    var base := project[..|project| - 3];
    assert project == base + ".db" + [];
    DisplayNameFirst(base, []);
  }

  /** The project's page, `/projects/{projectName}`, with the displayed name. */
  function Link(projectName: string): string {
    "/projects/" + projectName
  }

  /** `handleDownload(projectName)`: the address requested and the file name the PDF is saved under. */
  function Download(projectName: string): (request: (string, string)) {
    ("http://127.0.0.1:80/projects/" + projectName + "/download", projectName + "_assets.pdf")
  }

  /** The download request and file both carry the displayed name, and the file ends in "_assets.pdf". */
  lemma DownloadNames(projectName: string)
    ensures var (url, file) := Download(projectName);
            Occurs(projectName, url) && EndsWith(url, "/download")
            && file[..|projectName|] == projectName && EndsWith(file, "_assets.pdf")
  {
    var (url, file) := Download(projectName);
    OccursIn("http://127.0.0.1:80/projects/", projectName, "/download");
    assert url[|url| - 9..] == "/download";
    assert file[|file| - 11..] == "_assets.pdf";
  }

  /** One list row: the text shown, where it links, and (newer page only) what its button downloads. */
  datatype Row = Row(text: string, link: string, download: Option<(string, string)>)

  /** Below the heading: the rows, the "No projects found." line, or nothing (when the fetch failed). */
  datatype Body = Rows(rows: seq<Row>) | EmptyLine(message: string) | Blank

  datatype Screen = Screen(errorLine: Option<string>, body: Body)

  /** The row of one project: its display name, that name's page, and the newer page's download. */
  function RowOf(legacy: bool, project: string): Row {
    var name := DisplayName(project);
    Row(name, Link(name), if legacy then None else Some(Download(name)))
  }

  class ProjectList {
    const legacy: bool
    var projects: seq<string>
    var error: string

    constructor(legacy: bool)
      ensures this.legacy == legacy && projects == [] && error == ""
    {
      this.legacy := legacy;
      projects := [];
      error := "";
    }

    /** `setProjects(response.data.projects)`. */
    method OnFetchSuccess(names: seq<string>)
      modifies this`projects
      ensures projects == names
    {
      projects := names;
    }

    /** `setError("Failed to fetch projects.")`; the list keeps what it had. */
    method OnFetchFailure()
      modifies this`error
      ensures error == FetchError
    {
      error := FetchError;
    }

    /** What the page shows. */
    function View(): (s: Screen)
      reads this
    {
      var ps, legacy := projects, legacy;
      Screen(if error != "" then Some(error) else None,
             if |ps| > 0 then Rows(seq(|ps|, i requires 0 <= i < |ps| => RowOf(legacy, ps[i])))
             else if error == "" then EmptyLine(NoProjects)
             else Blank)
    }

    /**
     * One row per project, in the order received, each labelled with its
     * display name and linking to that name's page; only the newer page
     * has a download button, for the displayed name.
     */
    lemma ViewRows()
      ensures View().body.Rows? <==> projects != []
      ensures View().body.Rows? ==>
                |View().body.rows| == |projects|
                && forall i :: 0 <= i < |projects| ==>
                     var r := View().body.rows[i];
                     r.text == DisplayName(projects[i]) && r.link == "/projects/" + DisplayName(projects[i])
                     && (r.download.Some? <==> !legacy)
                     && (r.download.Some? ==> r.download.value == Download(DisplayName(projects[i])))
    {
    }

    /** "No projects found." appears exactly when the list is empty and no error is shown. */
    lemma ViewEmpty()
      ensures View().body == EmptyLine("No projects found.") <==> projects == [] && error == ""
      ensures View().errorLine.Some? <==> error != ""
      ensures View().body == Blank <==> projects == [] && error != ""
    {
    }
  }

  /** A failed fetch on a fresh page shows the error line and nothing below it. */
  method FailedFetchShowsError(legacy: bool) returns (s: Screen)
    ensures s == Screen(Some("Failed to fetch projects."), Blank)
  {
    var page := new ProjectList(legacy);
    page.OnFetchFailure();
    s := page.View();
  }

  /** A fetched list of databases is shown under its stripped names, in order. */
  method FetchedListShown(legacy: bool, names: seq<string>) returns (s: Screen)
    requires forall i :: 0 <= i < |names| ==> |names[i]| >= 3 && EndsWith(names[i], ".db") && !Occurs(".db", names[i][..|names[i]| - 3])
    ensures s.errorLine.None?
    ensures names == [] ==> s.body == EmptyLine("No projects found.")
    ensures names != [] ==> s.body.Rows? && |s.body.rows| == |names|
    ensures names != [] ==> forall i :: 0 <= i < |names| ==>
              s.body.rows[i].text == names[i][..|names[i]| - 3]
              && s.body.rows[i].link == "/projects/" + names[i][..|names[i]| - 3]
  {
    var page := new ProjectList(legacy);
    page.OnFetchSuccess(names);
    s := page.View();
    page.ViewRows();
    forall i | 0 <= i < |names|
      ensures DisplayName(names[i]) == names[i][..|names[i]| - 3]
    {
      ListedNameShown(names[i]);
    }
  }
}
