/**
 * The WMI executor: the PowerShell script that downloads and runs the
 * collector on a remote Windows host, the principal and target strings and
 * the wmiexec command line built around it, and what a finished run
 * returns and records.  The child process itself is a parameter.
 */
module WmiExec {
  import opened Common
  import opened Text
  import opened PsEncoding

  /** `http://{server_ip}/download`: where the collector script is fetched from. */
  function DownloadUrl(serverIp: string): string {
    "http://" + serverIp + "/download"
  }

  /** `http://{server_ip}/upload`: where the collector sends its results. */
  function UploadUrl(serverIp: string): string {
    "http://" + serverIp + "/upload"
  }

  const ScriptLead := "\n            $url = '"
  /** The rest of the download line, the destination (backslashes doubled, as in the raw string) and the call. */
  const ScriptFetch := "';\n            $dest = 'C:\\\\Windows\\\\Temp\\\\script.ps1';\n"
    + "            Invoke-WebRequest -Uri $url -OutFile $dest;\n"
    + "            powershell -ExecutionPolicy Bypass -File $dest -ServerUrl '"
  const ScriptProject := "' -ProjectName "
  const ScriptScanIp := " -scan_ip "
  const ScriptTail := ";\n            rm $dest\n            "

  /** What the collector is told: upload to the server, under the project name, for the scanned address. */
  function CollectorArgs(serverIp: string, projectName: string, ip: string): string {
    UploadUrl(serverIp) + ScriptProject + projectName + ScriptScanIp + ip
  }

  /** The script of the raw f-string `raw_ps`. */
  function Script(serverIp: string, projectName: string, ip: string): string {
    ScriptLead + DownloadUrl(serverIp) + ScriptFetch + CollectorArgs(serverIp, projectName, ip) + ScriptTail
  }

  /** The script fetches the collector from the server's download URL. */
  lemma ScriptDownloads(serverIp: string, projectName: string, ip: string)
    ensures Occurs(DownloadUrl(serverIp), Script(serverIp, projectName, ip))
  {
    var front := ScriptLead + DownloadUrl(serverIp);
    OccursIn(ScriptLead, DownloadUrl(serverIp), []);
    assert front + [] == front;
    OccursExtended(DownloadUrl(serverIp), front, ScriptFetch);
    OccursExtended(DownloadUrl(serverIp), front + ScriptFetch, CollectorArgs(serverIp, projectName, ip));
    OccursExtended(DownloadUrl(serverIp), front + ScriptFetch + CollectorArgs(serverIp, projectName, ip), ScriptTail);
  }

  /** The collector is told to upload to the server's upload URL, under the project name, for the scanned address. */
  lemma ScriptUploads(serverIp: string, projectName: string, ip: string)
    ensures Occurs(CollectorArgs(serverIp, projectName, ip), Script(serverIp, projectName, ip))
  {
    OccursIn(ScriptLead + DownloadUrl(serverIp) + ScriptFetch, CollectorArgs(serverIp, projectName, ip), ScriptTail);
  }

  /** `f"{domain}/{username}" if domain else username`. */
  function Principal(domain: string, username: string): (user: string)
    ensures |user| == if domain == [] then |username| else |domain| + 1 + |username|
  {
    if domain != [] then domain + "/" + username else username
  }

  /** A principal splits back at its first '/' into the domain and the user name, when the domain has no '/'. */
  lemma PrincipalParts(domain: string, username: string)
    requires '/' !in domain
    ensures domain == [] ==> Principal(domain, username) == username
    ensures domain != [] ==> var user := Principal(domain, username);
              Find(user, '/') == Some(|domain|) && user[..|domain|] == domain && user[|domain| + 1..] == username
  {
    if domain != [] {
      var user := Principal(domain, username);
      assert user[..|domain|] == domain;
      FindFirst(user, '/', |domain|);
    }
  }

  /** `f"{user}:{password}@{ip}"`. */
  function Target(user: string, password: string, ip: string): string {
    user + ":" + password + "@" + ip
  }

  /** The target ends with the address after its last '@', and starts with the principal before its first ':'. */
  lemma TargetParts(user: string, password: string, ip: string)
    requires '@' !in ip && ':' !in user
    ensures var t := Target(user, password, ip);
            t[|t| - |ip| - 1] == '@' && t[|t| - |ip|..] == ip && '@' !in t[|t| - |ip|..]
            && Find(t, ':') == Some(|user|) && t[..|user|] == user
  {
    var t := Target(user, password, ip);
    assert t[|t| - |ip|..] == ip;
    assert t[..|user|] == user;
    FindFirst(t, ':', |user|);
  }

  /** The last argument: the encoded script after `-EncodedCommand`. */
  function CommandArg(encoded: string): string {
    "powershell -EncodedCommand " + encoded
  }

  /** The argument vector: the interpreter, the wmiexec script, the target and the command. */
  function Command(executable: string, wmiexecPath: string, projectName: string, ip: string, username: string,
                   password: string, domain: string, serverIp: string): (cmd: seq<string>)
    ensures |cmd| == 4 && cmd[0] == executable && cmd[1] == wmiexecPath
  {
    var encoded := EncodeCommand(Script(serverIp, projectName, ip));
    [executable, wmiexecPath, Target(Principal(domain, username), password, ip), CommandArg(encoded)]
  }

  /** The text after "powershell -EncodedCommand " decodes (Base64, then UTF-16LE) to the script. */
  lemma CommandCarriesScript(executable: string, wmiexecPath: string, projectName: string, ip: string,
                             username: string, password: string, domain: string, serverIp: string)
    ensures var arg := Command(executable, wmiexecPath, projectName, ip, username, password, domain, serverIp)[3];
            var prefix := "powershell -EncodedCommand ";
            |arg| >= |prefix| && arg[..|prefix|] == prefix
            && Base64Decode(arg[|prefix|..]).Some?
            && DecodeUtf16Le(Base64Decode(arg[|prefix|..]).value) == Some(Script(serverIp, projectName, ip))
  {
    var encoded := EncodeCommand(Script(serverIp, projectName, ip));
    var arg := CommandArg(encoded);
    assert arg[..27] == "powershell -EncodedCommand " && arg[27..] == encoded;
    EncodeCommandRoundTrip(Script(serverIp, projectName, ip));
  }

  // ---------------------------------------------------------------------------
  // The run's outcome

  /** What `subprocess.run` gave: an exit code, or an exception (raised by it or by anything before it). */
  datatype Run = Exited(returncode: int) | Raised

  /** The row `create_db_and_store_results` is asked to store. */
  datatype Record = Record(project: string, ip: string, systemName: string, status: string, data: string)

  datatype Outcome = Outcome(success: bool, stored: Option<Record>)

  /** `connect_and_execute` after the run: true on exit code 0; any other code records a failed login. */
  function Finish(projectName: string, ip: string, run: Run): (o: Outcome)
    ensures o.success ==> o.stored.None?
    ensures o.stored.Some? ==> o.stored.value.status == "Failed" && o.stored.value.ip == ip
  {
    match run
    case Exited(code) =>
      if code == 0 then Outcome(true, None)
      else Outcome(false, Some(Record(projectName, ip, "", "Failed", "Error during login")))
    case Raised => Outcome(false, None)
  }

  /** Success exactly on exit code 0; a failed-login row exactly on another exit code, never on an exception. */
  lemma FinishCases(projectName: string, ip: string, run: Run)
    ensures Finish(projectName, ip, run).success <==> run == Exited(0)
    ensures Finish(projectName, ip, run).stored.Some? <==> run.Exited? && run.returncode != 0
    ensures Finish(projectName, ip, run).success ==> Finish(projectName, ip, run).stored.None?
    ensures Finish(projectName, ip, run).stored.Some? ==>
              var r := Finish(projectName, ip, run).stored.value;
              r.project == projectName && r.ip == ip && r.systemName == []
              && r.status == "Failed" && r.data == "Error during login"
  {
  }
}
