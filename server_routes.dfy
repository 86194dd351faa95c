/**
 * Two request handlers of the Flask server: `start_scan`, which checks the
 * posted form for its five required fields before handing them to the
 * scanner, and `list_projects`, which lists the project databases.  The
 * scanner and the directory listing are parameters: the scanner either
 * returns (with or without a message) or raises, the listing either gives
 * the directory's entries or raises.
 */
module ServerRoutes {
  import opened Common
  import opened Text

  // ---------------------------------------------------------------------------
  // start_scan

  /** The posted form fields; `request.form.get(k)` is `Some(form[k])` when present. */
  type Form = map<string, string>

  /** The fields `all([...])` insists on, in the order the handler reads them. */
  const RequiredFields: seq<string> := ["project_name", "username", "password", "ip_input", "serverip"]

  /** A field passes `all([...])` when it is present and not the empty string. */
  predicate Filled(form: Form, key: string) {
    key in form && form[key] != ""
  }

  /** The arguments of `run_scan(project_name, username, password, domain, ip_input, serverip)`. */
  datatype ScanCall = ScanCall(projectName: string, username: string, password: string,
                               domain: string, ipInput: string, serverIp: string)

  /** What the scanner did: it returned a dictionary, with or without a "message", or it raised. */
  datatype ScanRun = Returned(message: Option<string>) | Raised

  /** A JSON reply `{"message": ...}` and its HTTP status. */
  datatype Reply = Reply(status: int, message: string)

  const MissingFields := "Missing required fields."
  const ScanStarted := "Scan started."
  const ScanFailed := "Failed to start scan."

  /** `request.form.get("domain") or ""`: an absent or empty domain is "". */
  function Domain(form: Form): (d: string)
    ensures "domain" in form ==> d == form["domain"]
    ensures "domain" !in form ==> d == ""
  {
    if "domain" in form && form["domain"] != "" then form["domain"] else ""
  }

  /** The scanner call the form leads to, or None when a required field is missing or empty. */
  function ScanCallOf(form: Form): (call: Option<ScanCall>)
  {
    if Filled(form, "project_name") && Filled(form, "username") && Filled(form, "password")
       && Filled(form, "ip_input") && Filled(form, "serverip")
    then Some(ScanCall(form["project_name"], form["username"], form["password"], Domain(form),
                       form["ip_input"], form["serverip"]))
    else None
  }

  /** The scanner is called exactly when all five required fields are filled, and with the form's own values. */
  lemma ScanCallCases(form: Form)
    ensures ScanCallOf(form).Some? <==> forall i :: 0 <= i < |RequiredFields| ==> Filled(form, RequiredFields[i])
    ensures ScanCallOf(form).Some? ==>
              var c := ScanCallOf(form).value;
              c.projectName == form["project_name"] && c.username == form["username"]
              && c.password == form["password"] && c.ipInput == form["ip_input"]
              && c.serverIp == form["serverip"] && c.domain == Domain(form)
  {
    if forall i :: 0 <= i < |RequiredFields| ==> Filled(form, RequiredFields[i]) {
      assert Filled(form, RequiredFields[0]) && Filled(form, RequiredFields[1]) && Filled(form, RequiredFields[2])
             && Filled(form, RequiredFields[3]) && Filled(form, RequiredFields[4]);
    }
  }

  /** The domain is never required: whether it is posted does not decide whether the scan runs. */
  lemma DomainOptional(form: Form, domain: string)
    requires "domain" !in form
    ensures ScanCallOf(form).Some? <==> ScanCallOf(form["domain" := domain]).Some?
    ensures ScanCallOf(form).Some? ==> ScanCallOf(form).value.domain == ""
    ensures ScanCallOf(form).Some? ==> ScanCallOf(form["domain" := domain]).value.domain == domain
  {
    var form' := form["domain" := domain];
    assert forall k :: k != "domain" ==> (Filled(form, k) <==> Filled(form', k));
  }

  /**
   * `start_scan`: 400 when a required field is missing, else the scanner's
   * message (or "Scan started.") with 200; a raising scanner gives 500.
   * `run` is what the scanner did when called; it is ignored otherwise.
   */
  function StartScan(form: Form, run: ScanRun): (reply: Reply)
    ensures reply.status in {200, 400, 500}
    ensures reply.status == 400 <==> ScanCallOf(form).None?
    ensures reply.status == 500 <==> ScanCallOf(form).Some? && run.Raised?
  {
    match ScanCallOf(form)
    case None => Reply(400, MissingFields)
    case Some(_) =>
      match run
      case Raised => Reply(500, ScanFailed)
      case Returned(message) => Reply(200, if message.Some? then message.value else ScanStarted)
  }

  /**
   * The reply's status tells the three outcomes apart: 400 exactly when a
   * required field is missing (and then the scanner's behaviour is
   * irrelevant), 500 exactly when the called scanner raised, 200 otherwise
   * with the scanner's message or the default.
   */
  lemma StartScanCases(form: Form, run: ScanRun)
    ensures StartScan(form, run).status == 400 <==> ScanCallOf(form).None?
    ensures ScanCallOf(form).None? ==> StartScan(form, run) == Reply(400, "Missing required fields.")
    ensures StartScan(form, run).status == 500 <==> ScanCallOf(form).Some? && run.Raised?
    ensures StartScan(form, run).status == 500 ==> StartScan(form, run).message == "Failed to start scan."
    ensures StartScan(form, run).status == 200 <==> ScanCallOf(form).Some? && run.Returned?
    ensures StartScan(form, run).status == 200 ==>
              StartScan(form, run).message == (if run.message.Some? then run.message.value else "Scan started.")
    ensures StartScan(form, run).status in {200, 400, 500}
  {
  }

  /** An empty required field is refused like a missing one, whatever else the form holds. */
  lemma EmptyFieldRefused(form: Form, i: nat, run: ScanRun)
    requires i < |RequiredFields|
    ensures StartScan(form[RequiredFields[i] := ""], run) == Reply(400, "Missing required fields.")
    ensures StartScan(form - {RequiredFields[i]}, run) == Reply(400, "Missing required fields.")
  {
    var key := RequiredFields[i];
    assert !Filled(form[key := ""], key) && !Filled(form - {key}, key);
    ScanCallCases(form[key := ""]);
    ScanCallCases(form - {key});
  }

  // ---------------------------------------------------------------------------
  // list_projects

  /** `[f for f in entries if f.endswith('.db')]`. */
  function DbFiles(entries: seq<string>): (files: seq<string>)
    ensures |files| <= |entries|
    ensures forall i :: 0 <= i < |files| ==> EndsWith(files[i], ".db")
  {
    if entries == [] then []
    else if EndsWith(entries[0], ".db") then [entries[0]] + DbFiles(entries[1..])
    else DbFiles(entries[1..])
  }

  /** An entry is listed exactly when the directory has it and its name ends in ".db". */
  lemma {:induction false} DbFilesMembers(entries: seq<string>, f: string)
    ensures f in DbFiles(entries) <==> f in entries && EndsWith(f, ".db")
  {
    if entries != [] {
      DbFilesMembers(entries[1..], f);
      assert entries == [entries[0]] + entries[1..];
    }
  }

  /** The filter keeps the listing's order: it distributes over concatenation. */
  lemma {:induction false} DbFilesAppend(xs: seq<string>, ys: seq<string>)
    ensures DbFiles(xs + ys) == DbFiles(xs) + DbFiles(ys)
  {
    if xs == [] {
      assert xs + ys == ys;
    } else {
      var zs := xs + ys;
      assert zs[0] == xs[0] && zs[1..] == xs[1..] + ys;
      DbFilesAppend(xs[1..], ys);
      if EndsWith(xs[0], ".db") {
        assert DbFiles(zs) == [xs[0]] + DbFiles(xs[1..] + ys);
        assert DbFiles(xs) == [xs[0]] + DbFiles(xs[1..]);
      } else {
        assert DbFiles(zs) == DbFiles(xs[1..] + ys);
      }
    }
  }

  /** A listing of databases only is kept whole, so filtering twice changes nothing. */
  lemma {:induction false} DbFilesAllKept(entries: seq<string>)
    requires forall i :: 0 <= i < |entries| ==> EndsWith(entries[i], ".db")
    ensures DbFiles(entries) == entries
  {
    if entries != [] {
      DbFilesAllKept(entries[1..]);
    }
  }

  lemma DbFilesIdempotent(entries: seq<string>)
    ensures DbFiles(DbFiles(entries)) == DbFiles(entries)
  {
    DbFilesAllKept(DbFiles(entries));
  }

  /** Something is dropped exactly when some entry does not end in ".db". */
  lemma {:induction false} DbFilesDrops(entries: seq<string>)
    ensures |DbFiles(entries)| < |entries| <==> exists i :: 0 <= i < |entries| && !EndsWith(entries[i], ".db")
  {
    if entries != [] {
      DbFilesDrops(entries[1..]);
      var rest := entries[1..];
      if !EndsWith(entries[0], ".db") {
        assert |DbFiles(rest)| <= |rest|;
      } else {
        assert (exists i :: 0 <= i < |entries| && !EndsWith(entries[i], ".db"))
               <==> (exists i :: 0 <= i < |rest| && !EndsWith(rest[i], ".db")) by {
          forall i | 0 <= i < |rest| ensures rest[i] == entries[i + 1] { }
          forall i | 1 <= i < |entries| ensures entries[i] == rest[i - 1] { }
        }
      }
    }
  }

  /** `{"projects": db_files}, 200`, or `{"error": str(e)}, 500` when the listing raised. */
  datatype ProjectsReply = Projects(names: seq<string>) | ListError(message: string)

  function ListProjects(listing: Result<seq<string>, string>): (reply: ProjectsReply)
    ensures listing.Err? <==> reply.ListError?
  {
    match listing
    case Ok(entries) => Projects(DbFiles(entries))
    case Err(e) => ListError(e)
  }

  /** The status of the reply: 200 with the list, 500 with the error. */
  function ProjectsStatus(reply: ProjectsReply): int {
    if reply.Projects? then 200 else 500
  }

  /** A listed project is a ".db" entry of the directory, and every such entry is listed. */
  lemma ListProjectsMembers(entries: seq<string>, f: string)
    ensures ProjectsStatus(ListProjects(Ok(entries))) == 200
    ensures f in ListProjects(Ok(entries)).names <==> f in entries && EndsWith(f, ".db")
  {
    DbFilesMembers(entries, f);
  }
}
