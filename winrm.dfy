/**
 * The WinRM executor: the same collector script without the scan address,
 * the NTLM principal, the two WS-Management endpoints (HTTPS on 5986 first,
 * plain HTTP on 5985 when that raises) and the rule that decides success.
 * The sessions themselves are parameters: each attempt either completes
 * with a status code or raises.
 */
module WinRmExec {
  import opened Common
  import opened Text
  import opened PsEncoding

  function DownloadUrl(serverIp: string): string {
    "http://" + serverIp + "/download"
  }

  function UploadUrl(serverIp: string): string {
    "http://" + serverIp + "/upload"
  }

  const ScriptLead := "\n            $url = '"
  /** The rest of the download line, the destination (single backslashes: this f-string is not raw) and the call. */
  const ScriptFetch := "';\n            $dest = 'C:\\Windows\\Temp\\script.ps1';\n"
    + "            Invoke-WebRequest -Uri $url -OutFile $dest;\n"
    + "            powershell -ExecutionPolicy Bypass -File $dest -ServerUrl '"
  const ScriptProject := "' -ProjectName "
  const ScriptTail := "\n        "

  /** What the collector is told: upload to the server, under the project name. */
  function CollectorArgs(serverIp: string, projectName: string): string {
    UploadUrl(serverIp) + ScriptProject + projectName
  }

  /** The script of the f-string `raw_ps`: it ends with the project name, no scan address follows. */
  function Script(serverIp: string, projectName: string): string {
    ScriptLead + DownloadUrl(serverIp) + ScriptFetch + CollectorArgs(serverIp, projectName) + ScriptTail
  }

  /** The script fetches the collector from the server's download URL. */
  lemma ScriptDownloads(serverIp: string, projectName: string)
    ensures Occurs(DownloadUrl(serverIp), Script(serverIp, projectName))
  {
    var front := ScriptLead + DownloadUrl(serverIp);
    OccursIn(ScriptLead, DownloadUrl(serverIp), []);
    assert front + [] == front;
    OccursExtended(DownloadUrl(serverIp), front, ScriptFetch);
    OccursExtended(DownloadUrl(serverIp), front + ScriptFetch, CollectorArgs(serverIp, projectName));
    OccursExtended(DownloadUrl(serverIp), front + ScriptFetch + CollectorArgs(serverIp, projectName), ScriptTail);
  }

  /** The collector is told to upload to the server's upload URL under the project name. */
  lemma ScriptUploads(serverIp: string, projectName: string)
    ensures Occurs(CollectorArgs(serverIp, projectName), Script(serverIp, projectName))
  {
    OccursIn(ScriptLead + DownloadUrl(serverIp) + ScriptFetch, CollectorArgs(serverIp, projectName), ScriptTail);
  }

  /** Nothing but the closing whitespace follows the project name: no scan address is passed. */
  lemma ScriptEnds(serverIp: string, projectName: string)
    ensures EndsWith(Script(serverIp, projectName), projectName + ScriptTail)
  {
    var s := Script(serverIp, projectName);
    assert CollectorArgs(serverIp, projectName) == UploadUrl(serverIp) + ScriptProject + projectName;
    var suffix := projectName + ScriptTail;
    assert s[|s| - |suffix|..] == suffix by {
      forall i | 0 <= i < |suffix| ensures s[|s| - |suffix| + i] == suffix[i] {
        if i < |projectName| {
          assert s[|s| - |suffix| + i] == CollectorArgs(serverIp, projectName)[|CollectorArgs(serverIp, projectName)| - |projectName| + i];
        }
      }
    }
  }

  /** `f"{domain}\\{username}" if domain else username`. */
  function Principal(domain: string, username: string): (user: string)
    ensures |user| == if domain == [] then |username| else |domain| + 1 + |username|
  {
    if domain != [] then domain + "\\" + username else username
  }

  /** A principal splits back at its first backslash into the domain and the user name, when the domain has none. */
  lemma PrincipalParts(domain: string, username: string)
    requires '\\' !in domain
    ensures domain == [] ==> Principal(domain, username) == username
    ensures domain != [] ==> var user := Principal(domain, username);
              Find(user, '\\') == Some(|domain|) && user[..|domain|] == domain && user[|domain| + 1..] == username
  {
    if domain != [] {
      var user := Principal(domain, username);
      assert user[..|domain|] == domain;
      FindFirst(user, '\\', |domain|);
    }
  }

  function HttpsEndpoint(ip: string): string {
    "https://" + ip + ":5986/wsman"
  }

  function HttpEndpoint(ip: string): string {
    "http://" + ip + ":5985/wsman"
  }

  /** The two endpoints differ for every address: the scheme already tells them apart. */
  lemma EndpointsDiffer(ip: string)
    ensures HttpsEndpoint(ip) != HttpEndpoint(ip)
    ensures HttpsEndpoint(ip)[..8] == "https://" && HttpEndpoint(ip)[..7] == "http://"
  {
    assert HttpsEndpoint(ip)[4] == 's' && HttpEndpoint(ip)[4] == ':';
  }

  /** `session.run_cmd("powershell.exe", ["-encodedcommand", encoded_cmd])`: the program and its arguments. */
  function RunCmd(serverIp: string, projectName: string): (call: (string, seq<string>))
    ensures call.0 == "powershell.exe" && |call.1| == 2 && call.1[0] == "-encodedcommand"
  {
    ("powershell.exe", ["-encodedcommand", EncodeCommand(Script(serverIp, projectName))])
  }

  /** The encoded argument decodes (Base64, then UTF-16LE) to the script. */
  lemma RunCmdCarriesScript(serverIp: string, projectName: string)
    ensures Base64Decode(RunCmd(serverIp, projectName).1[1]).Some?
    ensures DecodeUtf16Le(Base64Decode(RunCmd(serverIp, projectName).1[1]).value) == Some(Script(serverIp, projectName))
  {
    EncodeCommandRoundTrip(Script(serverIp, projectName));
  }

  // ---------------------------------------------------------------------------
  // The two attempts

  /**
   * One session attempt: it completes with a status code (and whether the
   * output it logs decodes as UTF-8), or it raises.
   */
  datatype Attempt = Completed(statusCode: int, outputDecodes: bool) | Raised

  /** The endpoints used, in order, and the value returned. */
  datatype Connection = Connection(endpoints: seq<string>, success: bool)

  /**
   * `connect_and_execute`: HTTPS first; only when it raises is HTTP tried.
   * A raising HTTP attempt, or a log line whose output does not decode,
   * ends in the outer handler and returns false.
   */
  function Connect(ip: string, https: Attempt, http: Attempt): (c: Connection)
    ensures 1 <= |c.endpoints| <= 2 && c.endpoints[0] == HttpsEndpoint(ip)
    ensures c.success ==> (https.Completed? && https.statusCode == 0) || (https.Raised? && http.Completed? && http.statusCode == 0)
  {
    var last := if https.Raised? then http else https;
    var endpoints := if https.Raised? then [HttpsEndpoint(ip), HttpEndpoint(ip)] else [HttpsEndpoint(ip)];
    Connection(endpoints, last.Completed? && last.statusCode == 0 && last.outputDecodes)
  }

  /** HTTPS is always tried first, and HTTP is tried exactly when HTTPS raised. */
  lemma ConnectOrder(ip: string, https: Attempt, http: Attempt)
    ensures Connect(ip, https, http).endpoints[0] == HttpsEndpoint(ip)
    ensures |Connect(ip, https, http).endpoints| == 2 <==> https.Raised?
    ensures |Connect(ip, https, http).endpoints| == 2 ==> Connect(ip, https, http).endpoints[1] == HttpEndpoint(ip)
    ensures 1 <= |Connect(ip, https, http).endpoints| <= 2
  {
  }

  /** True exactly when the attempt that completed first returned status 0 (and its output could be logged). */
  lemma ConnectSucceeds(ip: string, https: Attempt, http: Attempt)
    ensures Connect(ip, https, http).success <==>
              (https.Completed? && https.statusCode == 0 && https.outputDecodes)
              || (https.Raised? && http.Completed? && http.statusCode == 0 && http.outputDecodes)
    ensures https.Raised? && http.Raised? ==> !Connect(ip, https, http).success
  {
  }

  /** Once HTTPS completes, the HTTP endpoint plays no part in the result. */
  lemma HttpsDecides(ip: string, https: Attempt, http1: Attempt, http2: Attempt)
    requires https.Completed?
    ensures Connect(ip, https, http1) == Connect(ip, https, http2)
  {
  }
}
