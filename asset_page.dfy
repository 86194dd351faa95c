/**
 * The state both asset detail pages keep (their `useState` fields) and the
 * callbacks that change it: the fetch of the asset document and the PDF
 * download. Both page versions have the same callbacks; `legacy` chooses
 * which version's tabs the screen shows.
 */
module AssetPageState {
  import opened Common
  import opened Text
  import opened JsValue
  import opened ViewModel
  import AssetDetail
  import LegacyAssetDetail

  /**
   * What the page shows: a loading line, the error line, the five tabs, or
   * nothing at all. Every tab body is built inline while the page renders,
   * so a throw in any of them ends the render; with no error boundary React
   * then unmounts the page and leaves it blank.
   */
  datatype Screen =
    | LoadingLine
    | ErrorLine(message: string)
    | Tabs(details: seq<Block>, hardware: seq<Block>, software: seq<Block>, users: seq<Block>, security: seq<Block>)
    | Blank

  const FetchError: string := "Failed to fetch asset details."

  /** `data[key] || fallback` for a document that is not null. */
  function SectionOr(data: Value, key: string, fallback: Value): (r: Value)
    requires Truthy(fallback)
    ensures Truthy(r)
    ensures Get(data, key).Some? && Truthy(Get(data, key).value) ==> r == Get(data, key).value
    ensures (Get(data, key).None? || !Truthy(Get(data, key).value)) ==> r == fallback
  {
    match Get(data, key)
    case None => fallback
    case Some(v) => Or(v, fallback)
  }

  class AssetPage {
    const projectName: string
    const assetName: string
    const legacy: bool
    var assetDetails: Value
    var hardware: Value
    var software: Value
    var users: Value
    var security: Value
    var loading: bool
    var error: Option<string>
    var downloading: bool

    /**
     * Every section holds a truthy value (each was set with `|| {}` or
     * `|| []`), and the page is never loading and failed at once.
     */
    predicate Valid()
      reads this
    {
      Truthy(assetDetails) && Truthy(hardware) && Truthy(software) && Truthy(users) && Truthy(security)
      && !(loading && error.Some?)
    }

    constructor(projectName: string, assetName: string, legacy: bool)
      ensures Valid()
      ensures this.projectName == projectName && this.assetName == assetName && this.legacy == legacy
      ensures assetDetails == Obj([]) && hardware == Arr([]) && software == Arr([])
      ensures users == Arr([]) && security == Arr([])
      ensures loading && error.None? && !downloading
    {
      this.projectName := projectName;
      this.assetName := assetName;
      this.legacy := legacy;
      assetDetails := Obj([]);
      hardware := Arr([]);
      software := Arr([]);
      users := Arr([]);
      security := Arr([]);
      loading := true;
      error := None;
      downloading := false;
    }

    /** The address the asset document is fetched from. */
    function FetchUrl(): string {
      "http://localhost:80/api/project/" + projectName + "/asset/" + assetName
    }

    /** The address the PDF of `asset` is requested from. */
    function PdfUrl(asset: string): string {
      "http://localhost/api/project/" + projectName + "/asset/" + asset + "/pdf/"
    }

    /**
     * The fetch answered with `data`. Reading a section of a null document
     * throws inside the handler, which ends in the failure path instead.
     */
    method OnFetchSuccess(data: Value)
      requires Valid()
      modifies this
      ensures Valid()
      ensures !loading && !downloading == !old(downloading)
      ensures data.Null? ==> error == Some(FetchError) && unchanged(this`assetDetails, this`hardware, this`software, this`users, this`security)
      ensures !data.Null? ==> error == old(error)
      ensures !data.Null? ==> assetDetails == SectionOr(data, "AssetDetails", Obj([]))
                              && hardware == SectionOr(data, "Hardware", Arr([]))
                              && software == SectionOr(data, "Software", Arr([]))
                              && users == SectionOr(data, "Users", Arr([]))
                              && security == SectionOr(data, "Security", Arr([]))
    {
      if data.Null? {
        OnFetchFailure();
        return;
      }
      assetDetails := SectionOr(data, "AssetDetails", Obj([]));
      hardware := SectionOr(data, "Hardware", Arr([]));
      software := SectionOr(data, "Software", Arr([]));
      users := SectionOr(data, "Users", Arr([]));
      security := SectionOr(data, "Security", Arr([]));
      loading := false;
    }

    /** The fetch failed. */
    method OnFetchFailure()
      requires Valid()
      modifies this`error, this`loading
      ensures Valid()
      ensures error == Some(FetchError) && !loading
    {
      error := Some(FetchError);
      loading := false;
    }

    /**
     * The download button: nothing happens without a project name;
     * otherwise the page marks itself downloading and requests the PDF,
     * which it saves as "{asset}_details.pdf".
     */
    method StartDownload(asset: string) returns (request: Option<(string, string)>)
      modifies this`downloading
      ensures projectName == "" ==> request.None? && downloading == old(downloading)
      ensures projectName != "" ==> downloading
                                    && request == Some((PdfUrl(asset), asset + "_details.pdf"))
    {
      if projectName == "" {
        return None;
      }
      downloading := true;
      request := Some((PdfUrl(asset), asset + "_details.pdf"));
    }

    /** The PDF request settled, successfully or not. */
    method FinishDownload()
      modifies this`downloading
      ensures !downloading
    {
      downloading := false;
    }

    /** The five tab bodies of the page's version, in tab order, each rendered or thrown. */
    function TabBodies(): (rs: seq<Rendered<seq<Block>>>)
      reads this
      ensures |rs| == 5
    {
      if legacy then
        [LegacyAssetDetail.AssetDetailsTab(assetDetails), LegacyAssetDetail.HardwareTab(hardware),
         LegacyAssetDetail.SoftwareTab(software), LegacyAssetDetail.UsersTab(users),
         LegacyAssetDetail.SecurityTab(security)]
      else
        [Shown(AssetDetail.AssetDetailsTab(assetDetails)), AssetDetail.HardwareTab(hardware),
         AssetDetail.SoftwareTab(software), AssetDetail.UsersTab(users), AssetDetail.SecurityTab(security)]
    }

    /**
     * What the page shows in its current state: past loading and without an
     * error, the page is blank exactly when some tab body throws, and
     * otherwise shows every tab body as rendered.
     */
    function View(): (s: Screen)
      reads this
      ensures loading ==> s == LoadingLine
      ensures !loading && error.Some? && error.value != [] ==> s == ErrorLine(error.value)
      ensures s.Tabs? || s.Blank? <==> !loading && (error.None? || error.value == [])
      ensures s.Blank? <==> !loading && (error.None? || error.value == [])
                            && exists i :: 0 <= i < 5 && TabBodies()[i].Throws?
      ensures s.Tabs? ==> TabBodies() == [Shown(s.details), Shown(s.hardware), Shown(s.software),
                                          Shown(s.users), Shown(s.security)]
    {
      if loading then LoadingLine
      else if error.Some? && error.value != [] then ErrorLine(error.value)
      else
        var rs := TabBodies();
        match Collect(rs)
        case Shown(vs) => Tabs(vs[0], vs[1], vs[2], vs[3], vs[4])
        case Throws => Blank
    }

    /** The button label: "Generating PDF..." while a download runs. */
    function ButtonLabel(): (s: string)
      reads this
      ensures downloading <==> s == "Generating PDF..."
    {
      if downloading then "Generating PDF..." else "Download PDF"
    }
  }

  /**
   * After a successful fetch of an object whose Software section is an empty
   * list, or is missing, the Software tab shows its note.
   */
  lemma MissingSoftwareShowsNote(fields: seq<(string, Value)>)
    requires "Software" !in KeysOf(fields)
    ensures AssetDetail.SoftwareTab(SectionOr(Obj(fields), "Software", Arr([])))
         == Shown([Note("No software found.")])
  {
  }

  /** A Security section that is a non-empty object rather than a list makes the Security tab throw. */
  lemma ObjectSecurityThrows(fields: seq<(string, Value)>)
    requires fields != [] && "length" !in KeysOf(fields)
    ensures AssetDetail.SecurityTab(SectionOr(Obj([("Security", Obj(fields))]), "Security", Arr([]))).Throws?
    ensures LegacyAssetDetail.SecurityTab(SectionOr(Obj([("Security", Obj(fields))]), "Security", Arr([]))).Throws?
  {
    assert KeysOf([("Security", Obj(fields))]) == ["Security"];
    assert Get(Obj(fields), "length").None?;
  }

  /**
   * A fetched document whose Security section is a non-empty object leaves
   * the whole page blank in both versions, whatever the other sections hold.
   */
  lemma ObjectSecurityBlanksPage(page: AssetPage, fields: seq<(string, Value)>)
    requires !page.loading && page.error.None?
    requires page.security == SectionOr(Obj([("Security", Obj(fields))]), "Security", Arr([]))
    requires fields != [] && "length" !in KeysOf(fields)
    ensures page.View() == Blank
  {
    ObjectSecurityThrows(fields);
    assert page.TabBodies()[4].Throws?;
  }

  /** A Hardware section that is anything but a list leaves the whole page blank in both versions. */
  lemma HardwareNotListBlanksPage(page: AssetPage)
    requires !page.loading && page.error.None? && !page.hardware.Arr?
    ensures page.View() == Blank
  {
    assert page.TabBodies()[1].Throws?;
  }

  /** The fetch address up to the asset name, as slash-terminated segments. */
  function FetchSegments(p: string): seq<string> {
    ["http:", "", "localhost:80", "api", "project", p, "asset"]
  }

  /** The PDF address, as slash-terminated segments. */
  function PdfSegments(p: string, a: string): seq<string> {
    ["http:", "", "localhost", "api", "project", p, "asset", a, "pdf"]
  }

  /** `http://{host}/api/project/` cut at its slashes, in front of any tail. */
  lemma HostPieces(lit: string, host: string, tail: string)
    requires lit == "http:" + ['/'] + ([] + ['/'] + (host + ['/'] + ("api" + ['/'] + ("project" + ['/'] + []))))
    ensures lit + tail == "http:" + ['/'] + ([] + ['/'] + (host + ['/'] + ("api" + ['/'] + ("project" + ['/'] + tail))))
  {
  }

  lemma FetchPieces(p: string)
    ensures "http://localhost:80/api/project/" + p + "/asset/"
         == "http:" + ['/'] + ([] + ['/'] + ("localhost:80" + ['/'] + ("api" + ['/'] + ("project" + ['/'] + (p + ['/'] + ("asset" + ['/'] + []))))))
  {
    assert "/asset/" == ['/'] + ("asset" + ['/'] + []);
    assert "http://localhost:80/api/project/" + p + "/asset/" == "http://localhost:80/api/project/" + (p + ['/'] + ("asset" + ['/'] + []));
    HostPieces("http://localhost:80/api/project/", "localhost:80", p + ['/'] + ("asset" + ['/'] + []));
  }

  lemma PdfPieces(p: string, a: string)
    ensures "http://localhost/api/project/" + p + "/asset/" + a + "/pdf/"
         == "http:" + ['/'] + ([] + ['/'] + ("localhost" + ['/'] + ("api" + ['/'] + ("project" + ['/'] + (p + ['/'] + ("asset" + ['/'] + (a + ['/'] + ("pdf" + ['/'] + []))))))))
  {
    var tail := p + ['/'] + ("asset" + ['/'] + (a + ['/'] + ("pdf" + ['/'] + [])));
    assert "/asset/" == ['/'] + ("asset" + ['/'] + []) && "/pdf/" == ['/'] + ("pdf" + ['/'] + []);
    assert "http://localhost/api/project/" + p + "/asset/" + a + "/pdf/" == "http://localhost/api/project/" + tail;
    HostPieces("http://localhost/api/project/", "localhost", tail);
  }

  lemma FetchTerminated(p: string)
    ensures Terminated(FetchSegments(p), '/') == "http://localhost:80/api/project/" + p + "/asset/"
  {
    var s6 := ["asset"];
    var s5 := [p] + s6;
    var s4 := ["project"] + s5;
    var s3 := ["api"] + s4;
    var s2 := ["localhost:80"] + s3;
    var s1 := [[]] + s2;
    assert ["http:"] + s1 == FetchSegments(p);
    TerminatedCons("asset", [], '/');
    TerminatedCons(p, s6, '/');
    TerminatedCons("project", s5, '/');
    TerminatedCons("api", s4, '/');
    TerminatedCons("localhost:80", s3, '/');
    TerminatedCons([], s2, '/');
    TerminatedCons("http:", s1, '/');
    FetchPieces(p);
  }

  lemma PdfTerminated(p: string, a: string)
    ensures Terminated(PdfSegments(p, a), '/') == "http://localhost/api/project/" + p + "/asset/" + a + "/pdf/"
  {
    var s8 := ["pdf"];
    var s7 := [a] + s8;
    var s6 := ["asset"] + s7;
    var s5 := [p] + s6;
    var s4 := ["project"] + s5;
    var s3 := ["api"] + s4;
    var s2 := ["localhost"] + s3;
    var s1 := [[]] + s2;
    assert ["http:"] + s1 == PdfSegments(p, a);
    TerminatedCons("pdf", [], '/');
    TerminatedCons(a, s8, '/');
    TerminatedCons("asset", s7, '/');
    TerminatedCons(p, s6, '/');
    TerminatedCons("project", s5, '/');
    TerminatedCons("api", s4, '/');
    TerminatedCons("localhost", s3, '/');
    TerminatedCons([], s2, '/');
    TerminatedCons("http:", s1, '/');
    PdfPieces(p, a);
  }

  /**
   * Both request addresses carry the project and the asset as whole path
   * segments (when neither name holds a slash), so the server's route reads
   * back exactly the names the page was opened with.
   */
  lemma AssetAddresses(page: AssetPage, asset: string)
    requires '/' !in page.projectName && '/' !in page.assetName && '/' !in asset
    ensures Split(page.FetchUrl(), '/') == FetchSegments(page.projectName) + [page.assetName]
    ensures Split(page.PdfUrl(asset), '/') == PdfSegments(page.projectName, asset) + [""]
  {
    var p, a := page.projectName, page.assetName;
    FetchTerminated(p);
    SplitTerminated(FetchSegments(p), '/', a);
    assert Find(a, '/').None?;
    PdfTerminated(p, asset);
    SplitTerminated(PdfSegments(p, asset), '/', []);
    assert page.PdfUrl(asset) == Terminated(PdfSegments(p, asset), '/') + [];
    assert Find([], '/').None?;
  }

  /**
   * A page whose fetch answered with an empty object shows every tab in its
   * empty form, in both versions: no details, no hardware, and the three notes.
   */
  lemma EmptyDocumentTabs(legacy: bool)
    ensures var details := SectionOr(Obj([]), "AssetDetails", Obj([]));
            var hardware := SectionOr(Obj([]), "Hardware", Arr([]));
            var lists := SectionOr(Obj([]), "Software", Arr([]));
            details == Obj([]) && hardware == Arr([]) && lists == Arr([])
            && AssetDetail.HardwareTab(hardware) == Shown([]) && LegacyAssetDetail.HardwareTab(hardware) == Shown([])
            && AssetDetail.AssetDetailsTab(details) == [] && LegacyAssetDetail.AssetDetailsTab(details) == Shown([])
            && AssetDetail.SoftwareTab(lists) == Shown([Note("No software found.")])
            && LegacyAssetDetail.SecurityTab(lists) == Shown([Note("No security data found.")])
  {
    assert Views(AssetDetail.HardwareItems([])) == [];
  }

  /**
   * A page whose fetch answered with an empty object shows all five tabs,
   * in either version: empty details and hardware, and the three notes.
   */
  lemma EmptyPageShowsTabs(page: AssetPage)
    requires !page.loading && page.error.None?
    requires page.assetDetails == SectionOr(Obj([]), "AssetDetails", Obj([]))
    requires page.hardware == SectionOr(Obj([]), "Hardware", Arr([]))
    requires page.software == SectionOr(Obj([]), "Software", Arr([]))
    requires page.users == SectionOr(Obj([]), "Users", Arr([]))
    requires page.security == SectionOr(Obj([]), "Security", Arr([]))
    ensures page.View() == Tabs([], [], [Note("No software found.")], [Note("No users found.")],
                                [Note("No security data found.")])
  {
    EmptyDocumentTabs(page.legacy);
    assert LegacyAssetDetail.SoftwareTab(Arr([])) == Shown([Note("No software found.")]);
    assert LegacyAssetDetail.UsersTab(Arr([])) == Shown([Note("No users found.")]);
    assert AssetDetail.UsersTab(Arr([])) == Shown([Note("No users found.")]);
    assert AssetDetail.SecurityTab(Arr([])) == Shown([Note("No security data found.")]);
  }
}
