/**
 * The scan form, in both page versions (their `handleSubmit` is the same):
 * six text fields, a status message and its type. Submitting checks the
 * five required fields after trimming, sends all six untrimmed as a
 * URL-encoded form, and sets the message from the outcome of the request.
 * The request itself is a parameter: what the server answered, or that
 * the request failed before an answer.
 */
module ScanPage {
  import opened Common
  import opened Text
  import ServerRoutes

  const StartScanUrl := "http://127.0.0.1:80/start_scan"
  const FillRequired := "Please fill in all required fields."
  const StartedDefault := "Scan started successfully."
  const StartFailed := "Failed to start scan."
  const ConnectError := "Error connecting to the server."

  /** `messageType`: "", "success" or "error". */
  datatype MessageType = Unset | Success | Error

  /** The six field values, as typed. */
  datatype Fields = Fields(username: string, password: string, projectName: string,
                           domain: string, ipAddress: string, serverIp: string)

  /** `!s.trim()`: nothing but white space. */
  predicate Blank(s: string) {
    Strip(s, IsJsSpace) == []
  }

  /** The check that blocks submission; the domain is not part of it. */
  predicate Incomplete(f: Fields) {
    Blank(f.username) || Blank(f.password) || Blank(f.projectName) || Blank(f.ipAddress) || Blank(f.serverIp)
  }

  /** `URLSearchParams` after the six `append` calls. */
  function Params(f: Fields): (ps: seq<(string, string)>)
    ensures |ps| == 6
  {
    [("username", f.username)] + [("password", f.password)] + [("project_name", f.projectName)]
    + [("domain", f.domain)] + [("ip_input", f.ipAddress)] + [("serverip", f.serverIp)]
  }

  /** The field names, in the order they are sent. */
  const ParamNames: seq<string> := ["username", "password", "project_name", "domain", "ip_input", "serverip"]

  /** The fields go out in a fixed order, each with its value exactly as typed. */
  lemma ParamsOrder(f: Fields)
    ensures forall i :: 0 <= i < 6 ==> Params(f)[i].0 == ParamNames[i]
    ensures Params(f)[0].1 == f.username && Params(f)[1].1 == f.password && Params(f)[2].1 == f.projectName
    ensures Params(f)[3].1 == f.domain && Params(f)[4].1 == f.ipAddress && Params(f)[5].1 == f.serverIp
  {
  }

  /** What the request gave the page: a response that axios accepted, or a thrown error (with the server's message, if any). */
  datatype Post = Answered(status: int, message: Option<string>) | Threw(message: Option<string>)

  /** axios resolves for statuses 200 to 299 and throws, keeping the response, for any other. */
  function Received(status: int, message: Option<string>): (p: Post)
    ensures p.Answered? <==> 200 <= status < 300
    ensures p.message == message
  {
    if 200 <= status < 300 then Answered(status, message) else Threw(message)
  }

  /** A message counts when it is present and not empty (JavaScript truthiness). */
  predicate Given(message: Option<string>) {
    message.Some? && message.value != ""
  }

  /** The message and its type after the request: the branches of the `try` and the `catch`. */
  function Outcome(post: Post): (string, MessageType) {
    match post
    case Answered(status, message) =>
      if status == 200 then (if Given(message) then message.value else StartedDefault, Success)
      else (StartFailed, Error)
    case Threw(message) => (if Given(message) then message.value else ConnectError, Error)
  }

  /**
   * Success exactly on a 200 answer; the server's message is shown when it
   * has one, else the page's default for the branch; every other outcome is
   * an error.
   */
  lemma OutcomeCases(post: Post)
    ensures Outcome(post).1 == Success <==> post.Answered? && post.status == 200
    ensures Outcome(post).1 != Unset
    ensures post.Answered? && post.status == 200 ==>
              Outcome(post).0 == if Given(post.message) then post.message.value else "Scan started successfully."
    ensures post.Answered? && post.status != 200 ==> Outcome(post).0 == "Failed to start scan."
    ensures post.Threw? ==> Outcome(post).0 == if Given(post.message) then post.message.value else "Error connecting to the server."
  {
  }

  class ScanForm {
    var username: string
    var password: string
    var projectName: string
    var domainName: string
    var ipAddress: string
    var serverIp: string
    var message: string
    var messageType: MessageType

    constructor()
      ensures Current() == Fields("", "", "", "", "", "")
      ensures message == "" && messageType == Unset
    {
      username, password, projectName := "", "", "";
      domainName, ipAddress, serverIp := "", "", "";
      message, messageType := "", Unset;
    }

    /** The field values as they stand. */
    function Current(): Fields
      reads this
    {
      Fields(username, password, projectName, domainName, ipAddress, serverIp)
    }

    /** The inputs' `onChange` handlers, all at once. */
    method Type(f: Fields)
      modifies this`username, this`password, this`projectName, this`domainName, this`ipAddress, this`serverIp
      ensures Current() == f
    {
      username, password, projectName := f.username, f.password, f.projectName;
      domainName, ipAddress, serverIp := f.domain, f.ipAddress, f.serverIp;
    }

    /**
     * `handleSubmit`: blocked with the required-fields message when a
     * required field is blank; otherwise the six fields are appended one by
     * one and sent, and `post` (what the request gave) sets the message.
     */
    method HandleSubmit(post: Post) returns (sent: Option<seq<(string, string)>>)
      modifies this`message, this`messageType
      ensures Incomplete(Current()) ==> sent.None? && message == FillRequired && messageType == Error
      ensures !Incomplete(Current()) ==> sent == Some(Params(Current())) && (message, messageType) == Outcome(post)
    {
      if Blank(username) || Blank(password) || Blank(projectName) || Blank(ipAddress) || Blank(serverIp) {
        message := FillRequired;
        messageType := Error;
        return None;
      }
      var params: seq<(string, string)> := [("username", username)];
      params := params + [("password", password)];
      params := params + [("project_name", projectName)];
      params := params + [("domain", domainName)];
      params := params + [("ip_input", ipAddress)];
      params := params + [("serverip", serverIp)];
      assert params == Params(Current());
      match post {
        case Answered(status, m) =>
          if status == 200 {
            message := if Given(m) then m.value else StartedDefault;
            messageType := Success;
          } else {
            message := StartFailed;
            messageType := Error;
          }
        case Threw(m) =>
          message := if Given(m) then m.value else ConnectError;
          messageType := Error;
      }
      sent := Some(params);
    }
  }

  // ---------------------------------------------------------------------------
  // The form as the server reads it

  /** The posted form as Flask reads it: `request.form.get(k)` gives the first value sent under `k`. */
  function FormOf(params: seq<(string, string)>): (form: ServerRoutes.Form)
    ensures forall i :: 0 <= i < |params| ==> params[i].0 in form
    ensures forall k :: k in form ==> exists i :: 0 <= i < |params| && params[i].0 == k
    decreases |params|
  {
    if params == [] then map[] else FormOf(params[1..])[params[0].0 := params[0].1]
  }

  /** The value read under a name is the one sent first under it. */
  lemma {:induction false} FormOfFirst(params: seq<(string, string)>, i: nat)
    requires i < |params|
    requires forall j :: 0 <= j < i ==> params[j].0 != params[i].0
    ensures params[i].0 in FormOf(params) && FormOf(params)[params[i].0] == params[i].1
    decreases i
  {
    if i > 0 {
      FormOfFirst(params[1..], i - 1);
    }
  }

  /** With no name sent twice, every name reads back its own value. */
  lemma DistinctReadBack(params: seq<(string, string)>)
    requires forall i, j :: 0 <= j < i < |params| ==> params[j].0 != params[i].0
    ensures forall i :: 0 <= i < |params| ==> params[i].0 in FormOf(params) && FormOf(params)[params[i].0] == params[i].1
  {
    forall i | 0 <= i < |params|
      ensures params[i].0 in FormOf(params) && FormOf(params)[params[i].0] == params[i].1
    {
      FormOfFirst(params, i);
    }
  }

  /** The server reads back each field under its own name, as typed. */
  lemma FormOfParams(f: Fields)
    ensures var form := FormOf(Params(f));
            && "username" in form && "password" in form && "project_name" in form
            && "domain" in form && "ip_input" in form && "serverip" in form
            && form["username"] == f.username && form["password"] == f.password
            && form["project_name"] == f.projectName && form["domain"] == f.domain
            && form["ip_input"] == f.ipAddress && form["serverip"] == f.serverIp
  {
    var ps := Params(f);
    ParamsOrder(f);
    DistinctNames();
    DistinctReadBack(ps);
    assert ps[0].0 == "username" && ps[1].0 == "password" && ps[2].0 == "project_name";
    assert ps[3].0 == "domain" && ps[4].0 == "ip_input" && ps[5].0 == "serverip";
  }

  /** No field name is sent twice. */
  lemma DistinctNames()
    ensures forall i, j :: 0 <= j < i < |ParamNames| ==> ParamNames[j] != ParamNames[i]
  {
    forall i, j | 0 <= j < i < |ParamNames|
      ensures ParamNames[j] != ParamNames[i]
    {
      assert ParamNames[j][0] != ParamNames[i][0] || |ParamNames[j]| != |ParamNames[i]|;
    }
  }

  /** A string with something other than white space is not empty. */
  lemma NotBlankNotEmpty(s: string)
    requires !Blank(s)
    ensures s != ""
  {
  }

  /** Any form holding the six fields under their names leads to the scanner call with them, if the required five are not empty. */
  lemma CallOfFields(form: ServerRoutes.Form, f: Fields)
    requires "username" in form && "password" in form && "project_name" in form
             && "domain" in form && "ip_input" in form && "serverip" in form
    requires form["username"] == f.username && form["password"] == f.password
             && form["project_name"] == f.projectName && form["domain"] == f.domain
             && form["ip_input"] == f.ipAddress && form["serverip"] == f.serverIp
    ensures ServerRoutes.ScanCallOf(form).Some? <==>
              f.username != "" && f.password != "" && f.projectName != "" && f.ipAddress != "" && f.serverIp != ""
    ensures ServerRoutes.ScanCallOf(form).Some? ==>
              ServerRoutes.ScanCallOf(form).value
              == ServerRoutes.ScanCall(f.projectName, f.username, f.password, f.domain, f.ipAddress, f.serverIp)
  {
  }

  /**
   * Whatever the page sends, the server accepts: a field that is not blank
   * is not empty. The server then calls the scanner with the untrimmed
   * values, an empty domain included.
   */
  lemma ServerAcceptsSubmitted(f: Fields)
    requires !Incomplete(f)
    ensures ServerRoutes.ScanCallOf(FormOf(Params(f)))
         == Some(ServerRoutes.ScanCall(f.projectName, f.username, f.password, f.domain, f.ipAddress, f.serverIp))
  {
    FormOfParams(f);
    NotBlankNotEmpty(f.username);
    NotBlankNotEmpty(f.password);
    NotBlankNotEmpty(f.projectName);
    NotBlankNotEmpty(f.ipAddress);
    NotBlankNotEmpty(f.serverIp);
    CallOfFields(FormOf(Params(f)), f);
  }

  /** The server checks only emptiness: fields of white space alone pass it, although the page refuses them. */
  lemma ServerChecksEmptiness(f: Fields)
    ensures ServerRoutes.ScanCallOf(FormOf(Params(f))).Some? <==>
              f.username != "" && f.password != "" && f.projectName != "" && f.ipAddress != "" && f.serverIp != ""
  {
    FormOfParams(f);
    CallOfFields(FormOf(Params(f)), f);
  }

  /** A field of one space is refused by the page. */
  lemma SpaceIsBlank()
    ensures Blank(" ")
  {
    assert IsJsSpace(" "[0]);
  }

  /** What the page shows for a form the server accepts, by what the scanner did. */
  lemma AcceptedOutcome(form: ServerRoutes.Form, run: ServerRoutes.ScanRun)
    requires ServerRoutes.ScanCallOf(form).Some?
    ensures var reply := ServerRoutes.StartScan(form, run);
            var shown := Outcome(Received(reply.status, Some(reply.message)));
            shown == if run.Raised? then ("Failed to start scan.", Error)
                     else if run.message.None? then ("Scan started.", Success)
                     else if run.message.value == "" then ("Scan started successfully.", Success)
                     else (run.message.value, Success)
  {
    var reply := ServerRoutes.StartScan(form, run);
    if run.Raised? {
      assert reply == ServerRoutes.Reply(500, ServerRoutes.ScanFailed);
    } else {
      assert reply == ServerRoutes.Reply(200, if run.message.Some? then run.message.value else ServerRoutes.ScanStarted);
    }
  }

  /**
   * From a complete form to the message shown: a scanner that raises shows
   * "Failed to start scan." (the 500 reply's own message); otherwise the
   * scanner's message, or the server's default "Scan started." when it gave
   * none. The page's own default appears only when that message is empty.
   */
  lemma SubmitThroughServer(f: Fields, run: ServerRoutes.ScanRun)
    requires !Incomplete(f)
    ensures var reply := ServerRoutes.StartScan(FormOf(Params(f)), run);
            var shown := Outcome(Received(reply.status, Some(reply.message)));
            shown == if run.Raised? then ("Failed to start scan.", Error)
                     else if run.message.None? then ("Scan started.", Success)
                     else if run.message.value == "" then ("Scan started successfully.", Success)
                     else (run.message.value, Success)
  {
    ServerAcceptsSubmitted(f);
    AcceptedOutcome(FormOf(Params(f)), run);
  }
}
