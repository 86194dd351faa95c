# Asset discovery tool — verified model of its core logic

The asset discovery tool scans a set of Windows machines for a project. A Flask
server takes the scan form, expands the address input into a list of
targets, and runs a PowerShell collector on each target through wmiexec or
WinRM. The collector uploads a JSON document per machine. The server stores
these documents in one SQLite database per project, and it exports them as
PDF reports and CSV rows. Two versions of a React front end list the
projects, show an asset's document in five tabs (Asset Details, Hardware,
Software, Users, Security) and submit the scan form.

This project models the deterministic logic of that system in Dafny and
proves what it promises:

- **Scan targets** (`ScanTargets`, on `IPv4` and `IPv4Net`). The
  comma-separated address input is parsed into dash ranges, CIDR blocks and
  single addresses. The parsing follows the rules of CPython's `ipaddress`
  module. The result is the sorted, duplicate-free set of target addresses,
  or the error message the server would return. The range branch as written
  yields decimal integers instead of addresses (see "## Findings"). From the
  piece level up (`ExpandPart` to `GetInputData`) the model uses the
  corrected range, and `TargetsAsWritten` keeps the program's own result.
  Python's messages are those of CPython 3.9.5 to 3.12, which refuse
  leading zeros in an octet and unpack without a ", got N" suffix.
- **The PowerShell command** (`PsEncoding`, `WmiExec`, `WinRmExec`). The
  collector script is encoded as Base64 of its UTF-16LE bytes, and both
  encodings are proved to round-trip. The model also builds the principal,
  the wmiexec target, the WinRM endpoints and the success rule of each
  connector.
- **The PDF report** (`AssetReport`, `ReportLayout`). The reportlab drawing
  loop is a method over a `Canvas` class. It is proved against a
  specification of the lines it places: order, margins, page breaks,
  100-character truncation, and which sections appear. The Python errors
  that a non-object document raises are modelled too.
- **The CSV export** (`CsvExport`). Each stored document becomes five fields.
  The model covers the `.get` chains with their defaults, and the
  `AttributeError` and `IndexError` paths that escape the loop.
- **The server routes** (`ServerRoutes`). `start_scan` checks the required
  fields; `list_projects` keeps only the `.db` files.
- **The asset page** (`JsValue`, `ViewModel`, `AssetDetail`,
  `LegacyAssetDetail`, `AssetPageState`). The JSON value model with
  JavaScript truthiness and `Object.entries` is defined once. On top of it
  sit the label/value trees, the table projections with their column rules
  (key union or first row) and the leaf formatters of both page versions.
  The page's state fields are a class updated by the fetch and download
  callbacks. Every tab body is built while the page renders, so a tab body
  that throws leaves the whole page blank.
- **The projects and scan pages** (`ProjectsPage`, `ScanPage`). The model
  covers the `.db` stripping of display names, the download request, the
  scan form's validation and the messages it shows. One lemma follows a
  submitted form through `start_scan`.

Shared pieces: `Common` (Option, Result), `Text` (strip, split, search,
string order and numerals), `PyText` (Python `repr`/`str` and type names).

Everything outside the program — HTTP, the database, subprocesses, WinRM
sessions, the clock — is a parameter. Each of the model's operations takes
what such a call returned (a fetched document, a listing, an exit code, a
thrown error) as an argument.

## Model

| member | source | states |
|---|---|---|
| Text.Strip | Backend/utils/get_inputs.py:20 | The stripped string is the slice between the leading and the trailing white space. It is empty exactly when every character is white space; otherwise it starts and ends with a non-space. |
| Text.Split | Backend/utils/get_inputs.py:18 | `str.split(sep)` gives at least one part, and no part contains the separator. |
| Text.SplitJoin | Backend/utils/get_inputs.py:18 | Joining the parts of a split with the separator gives back the input. |
| Text.JoinSplit | Backend/utils/get_inputs.py:18 | Splitting a join of separator-free parts gives back the parts. |
| Text.SplitTrailing | Backend/utils/get_inputs.py:18 | A trailing comma adds one empty last part. |
| Text.IndexOf | frontend/src/pages/projects.tsx:77 | Returns the first position where the pattern matches, and None exactly when it does not occur. |
| Text.LessIrreflexive | Backend/utils/get_inputs.py:39 | Python string order is irreflexive. |
| Text.LessAsymmetric | Backend/utils/get_inputs.py:39 | Python string order is asymmetric. |
| Text.LessTransitive | Backend/utils/get_inputs.py:39 | Python string order is transitive. |
| Text.LessTotal | Backend/utils/get_inputs.py:39 | Any two distinct strings are ordered one way or the other. |
| Text.NatToString | Backend/utils/get_inputs.py:11 | `str(n)` is a canonical decimal numeral: no leading zero except for 0, and a single digit exactly below 10. |
| Text.ParseNatToString | Backend/utils/get_inputs.py:11 | Reading back the digits of `str(n)` gives n. |
| Text.NatToStringOfCanonical | Backend/utils/get_inputs.py:11 | A canonical numeral is `str` of its value. |
| Text.AsciiLower | Frontend/src/pages/AssetDetail.tsx:277 | `toLowerCase` on ASCII letters keeps the length and shifts exactly the capitals A–Z down to lower case. |
| Text.LowerConcat | Frontend/src/pages/AssetDetail.tsx:277 | Lower-casing a joined string lower-cases each part, so the test sees every position of the title alike. |
| IPv4.Octets | Backend/utils/get_inputs.py:7 | An address splits into four octets below 256. |
| IPv4.FromOctetsOctets | Backend/utils/get_inputs.py:7 | Rebuilding an address from its octets gives the address. |
| IPv4.OctetsFromOctets | Backend/utils/get_inputs.py:7 | Four octets below 256 are the octets of the address they build. |
| IPv4.ParseOctet | Backend/utils/get_inputs.py:7 | An octet is accepted exactly when it is a canonical decimal of at most three digits below 256. An accepted octet is the numeral of its value. |
| IPv4.ParseOctets | Backend/utils/get_inputs.py:7 | All four parts parse exactly when each part parses, and the result holds each part's value in order. |
| IPv4.IntFromString | Backend/utils/get_inputs.py:7 | A parsed address came from a non-empty string with exactly four dot-separated parts. |
| IPv4.FormatParses | Backend/utils/get_inputs.py:34 | `IPv4Address(str(a))` gives back a. |
| IPv4.ParsedIsFormat | Backend/utils/get_inputs.py:34 | An accepted string is the dotted-quad form of its own address, so no other spelling is accepted. |
| IPv4.ParsesIffFormat | Backend/utils/get_inputs.py:34 | A string parses to a exactly when it is the dotted-quad form of a. |
| IPv4.FormatInjective | Backend/utils/get_inputs.py:35 | Distinct addresses have distinct strings, so the set of strings has no duplicate addresses. |
| IPv4.LeadingZeroRefused | Backend/utils/get_inputs.py:34 | An octet with a leading zero makes the address invalid. |
| IPv4.FormatChars | Backend/utils/get_inputs.py:21 | A dotted quad holds only digits and dots: no '-' or '/' that would send it down another branch. |
| IPv4Net.BlockSize | Backend/utils/get_inputs.py:27 | A /p block holds 2^(32-p) addresses, and there are 2^p such blocks. |
| IPv4Net.MaskIncreasing | Backend/utils/get_inputs.py:27 | A longer prefix has a larger netmask. |
| IPv4Net.PrefixOf | Backend/utils/get_inputs.py:27 | Finds the prefix whose netmask equals a value, and None exactly when no prefix has that netmask. |
| IPv4Net.MaskPrefix | Backend/utils/get_inputs.py:27 | Every netmask leads back to its own prefix. |
| IPv4Net.ParseMask | Backend/utils/get_inputs.py:27 | The part after '/' is read as a prefix length of at most 32. A decimal numeral up to 32 gives that length. |
| IPv4Net.ParseNetwork | Backend/utils/get_inputs.py:27 | A parsed network has a prefix of at most 32 and the address before '/'. Two or more slashes are refused. |
| IPv4Net.BlockStart | Backend/utils/get_inputs.py:27 | `strict=False` masks the host bits: the start is aligned to the block size, and the address lies inside the block. |
| IPv4Net.SameBlock | Backend/utils/get_inputs.py:27 | Every address of an aligned block has that block's start. |
| IPv4Net.HostsInBlock | Backend/utils/get_inputs.py:28 | `hosts()` lies in the network's block, in strictly ascending order. A /32 yields its one address and a /31 yields both addresses. Up to /30 the network and broadcast addresses are excluded (block size minus 2 hosts). |
| IPv4Net.HostmaskIsNoMask | Backend/utils/get_inputs.py:27 | The hostmask of a /1–/31 block is never a netmask, so the two spellings cannot be confused. |
| IPv4Net.BareAddress | Backend/utils/get_inputs.py:27 | An address without '/' is a /32 network. |
| IPv4Net.MaskSpelling | Backend/utils/get_inputs.py:27 | `a/t` is the network of a with the prefix that t spells. |
| IPv4Net.NetworkSpellings | Backend/utils/get_inputs.py:27 | `a`, `a/p`, `a/<netmask>` and `a/<hostmask>` all give the network (a, p). |
| ScanTargets.RangeEnds | Backend/utils/get_inputs.py:6-10 | A range's two stripped ends are parsed as addresses. A result has start ≤ end. |
| ScanTargets.RangeEndsCases | Backend/utils/get_inputs.py:6-10 | More than two dash-separated parts give "too many values to unpack"; fewer than two give "not enough values". An accepted range is the parse of its two stripped ends. |
| ScanTargets.RangeSpelled | Backend/utils/get_inputs.py:9-10 | `a-b` is accepted as (a, b) exactly when b is not below a. Otherwise it raises "Invalid IP range: end IP is before start IP.". |
| ScanTargets.RangeList | Backend/utils/get_inputs.py:11 | The intended list has end−start+1 entries, and entry i is the dotted quad of start+i. |
| ScanTargets.NumberList | Backend/utils/get_inputs.py:11 | The list as written has end−start+1 entries, and entry i is `str(start + i)` as a decimal integer. |
| ScanTargets.NumeralIsNoAddress | Backend/utils/get_inputs.py:11 | No decimal numeral of an integer is a valid address. |
| ScanTargets.ParseIpRangeAsWritten | Backend/utils/get_inputs.py:11 | As written, an accepted range yields `str` of each integer from start to end, and errors are the same as RangeEnds's. |
| ScanTargets.RangeAsWrittenIsNotAddresses | Backend/utils/get_inputs.py:11 | None of the strings that the range yields as written is a valid address. |
| ScanTargets.SingleAddressRange | Backend/utils/get_inputs.py:11 | `a-a` yields `[str(int(a))]` as written, where `[str(a)]` is intended. |
| ScanTargets.ParseIpRange | Backend/utils/get_inputs.py:6-11 | The corrected range yields end−start+1 dotted quads, start+i at index i. It fails exactly when RangeEnds fails, with the same error. |
| ScanTargets.RangeListMembers | Backend/utils/get_inputs.py:11 | A string is in the range list exactly when it is a valid address between start and end inclusive. |
| ScanTargets.RangeListAscending | Backend/utils/get_inputs.py:11 | The range list is in ascending numeric order. |
| ScanTargets.ExpandPart | Backend/utils/get_inputs.py:21-37 | A part with '-' is a range, before '/' is looked at. This is the corrected program: the range branch yields dotted quads. |
| ScanTargets.ExpandPartCases | Backend/utils/get_inputs.py:24-37 | A part with '/' fails with "Invalid CIDR: part" exactly when it is no network. Otherwise the part must be a valid address; it yields itself, or fails with "Invalid IP address: part". |
| ScanTargets.ExpandedAreAddresses | Backend/utils/get_inputs.py:21-37 | In the corrected program, everything a part yields is a valid address in its canonical spelling. |
| ScanTargets.CidrHosts | Backend/utils/get_inputs.py:27-28 | A CIDR part yields hosts of its block, excluding the network and broadcast addresses up to /30. |
| ScanTargets.ExpandAll | Backend/utils/get_inputs.py:19-20 | Each comma-separated piece is stripped and expanded, one result per piece. |
| ScanTargets.CombineUnion | Backend/utils/get_inputs.py:15-37 | The set is the union of all pieces' expansions when none fails. Otherwise it is the error of the first failing piece, with every piece before it accepted. |
| ScanTargets.TargetsUnion | Backend/utils/get_inputs.py:15-37 | The same, stated on the input's pieces. |
| ScanTargets.EmptyPiece | Backend/utils/get_inputs.py:32-37 | An empty piece is "Invalid IP address: ". |
| ScanTargets.TrailingComma | Backend/utils/get_inputs.py:18-37 | A trailing comma turns an accepted input into "Invalid IP address: ". |
| ScanTargets.RangeTargetsAsWritten | Backend/utils/get_inputs.py:11-23 | For the input "a-b" with a ≤ b, the program as written collects the numerals of a..b, none of them an address. The corrected program collects the dotted quads of a..b. |
| ScanTargets.TwoDashes | Backend/utils/get_inputs.py:6 | A piece with two dashes fails with "too many values to unpack (expected 2)", CPython's message up to 3.12. |
| ScanTargets.StringOrderIsNotNumeric | Backend/utils/get_inputs.py:39 | "10.0.0.10" sorts before "10.0.0.2". |
| ScanTargets.SortedList | Backend/utils/get_inputs.py:39 | `sorted(set)` holds exactly the set's strings, strictly ascending in Python string order. |
| ScanTargets.CombineStep | Backend/utils/get_inputs.py:19-37 | One loop step adds a piece's expansion to the set, or ends the whole parse with its error. |
| ScanTargets.ErrorPersists | Backend/utils/get_inputs.py:19-37 | Once a piece has failed, the later pieces do not change the outcome. |
| ScanTargets.NormalizeIpList | Backend/utils/get_inputs.py:13-39 | The corrected loop fails exactly when some piece fails, with the first error. Otherwise it returns the sorted union of all expansions. |
| ScanTargets.GetInputData | Backend/utils/get_inputs.py:41-55 | For the corrected program, returns exactly one of `{"error": message}` (with the Python message of the first error) or `{"ips": sorted union}`. |
| ScanTargets.SortedDistinct | Backend/utils/get_inputs.py:39 | A strictly sorted output has no duplicates. |
| ScanTargets.TargetsAreAddresses | Backend/utils/get_inputs.py:15-37 | In the corrected program, every target is a valid address in canonical spelling. |
| PsEncoding.Units | Backend/utils/wmiconnect.py:14 | UTF-16 gives one code unit for a character below U+10000 (never a surrogate), else a high and a low surrogate. |
| PsEncoding.Utf16Le | Backend/utils/wmiconnect.py:14 | `encode("utf-16le")` gives two bytes per code unit, with no byte-order mark. |
| PsEncoding.Utf16LeRoundTrip | Backend/utils/wmiconnect.py:14 | UTF-16LE decoding of the bytes gives back the text. |
| PsEncoding.BmpUnits | Backend/utils/wmiconnect.py:14 | Text inside the Basic Multilingual Plane has one code unit per character. |
| PsEncoding.Base64Encode | Backend/utils/wmiconnect.py:14 | Base64 output is 4·⌈n/3⌉ characters long. |
| PsEncoding.Base64RoundTrip | Backend/utils/wmiconnect.py:14 | Base64 decoding of the encoding gives back the bytes. |
| PsEncoding.EncodedAlphabet | Backend/utils/wmiconnect.py:14 | Every output character is in the Base64 alphabet or is the '=' pad. |
| PsEncoding.EncodeCommand | Backend/utils/wmiconnect.py:13-14 | `encode_powershell_command(c)` is 4·⌈2u/3⌉ characters long, where u is the number of UTF-16 code units of c. |
| PsEncoding.EncodeCommandRoundTrip | Backend/utils/winrmlogin.py:11-12 | Base64 and then UTF-16LE decoding of the encoded command gives back the command. |
| WmiExec.ScriptDownloads | Backend/utils/wmiconnect.py:20-22 | The script fetches `http://{server_ip}/download`. |
| WmiExec.ScriptUploads | Backend/utils/wmiconnect.py:23 | The script runs the collector with `-ServerUrl 'http://{server_ip}/upload' -ProjectName {project} -scan_ip {ip}`. |
| WmiExec.Principal | Backend/utils/wmiconnect.py:28 | The user is `domain/username`, or `username` alone when there is no domain. |
| WmiExec.PrincipalParts | Backend/utils/wmiconnect.py:28 | Without a domain the user is the username; with one, the first '/' separates the domain from the username. |
| WmiExec.TargetParts | Backend/utils/wmiconnect.py:34 | `user:password@ip`: the user ends at the first ':' and the ip follows the last '@'. |
| WmiExec.Command | Backend/utils/wmiconnect.py:31-36 | The argument list is the interpreter, the wmiexec path, the target and the command. |
| WmiExec.CommandCarriesScript | Backend/utils/wmiconnect.py:35 | The last argument is "powershell -EncodedCommand " followed by an encoding that decodes back to the script. |
| WmiExec.Finish | Backend/utils/wmiconnect.py:40-53 | A success stores nothing. A stored record is a "Failed" record for the scanned ip. |
| WmiExec.FinishCases | Backend/utils/wmiconnect.py:40-53 | Success exactly on exit code 0. A non-zero code stores "Failed" / "Error during login" with an empty system name. An exception stores nothing and fails. |
| WinRmExec.ScriptDownloads | Backend/utils/winrmlogin.py:17-19 | The script fetches `http://{server_ip}/download`. |
| WinRmExec.ScriptUploads | Backend/utils/winrmlogin.py:20 | The script uploads to `http://{server_ip}/upload` with the project name. |
| WinRmExec.ScriptEnds | Backend/utils/winrmlogin.py:20-21 | The script ends with the project name: there is no scan-ip argument. |
| WinRmExec.Principal | Backend/utils/winrmlogin.py:25 | The user is `domain\username`, or `username` alone when there is no domain. |
| WinRmExec.PrincipalParts | Backend/utils/winrmlogin.py:25 | With a domain, the first backslash separates the domain from the username. |
| WinRmExec.EndpointsDiffer | Backend/utils/winrmlogin.py:30-38 | `https://{ip}:5986/wsman` and `http://{ip}:5985/wsman` are different endpoints. |
| WinRmExec.RunCmd | Backend/utils/winrmlogin.py:34 | `run_cmd("powershell.exe", ["-encodedcommand", encoded])`. |
| WinRmExec.RunCmdCarriesScript | Backend/utils/winrmlogin.py:23-34 | The encoded argument decodes back to the script. |
| WinRmExec.Connect | Backend/utils/winrmlogin.py:28-52 | One or two endpoints are tried, HTTPS first. Success means the session that answered returned status 0. |
| WinRmExec.ConnectOrder | Backend/utils/winrmlogin.py:28-41 | HTTPS is tried first. HTTP is tried second, exactly when HTTPS raised. |
| WinRmExec.ConnectSucceeds | Backend/utils/winrmlogin.py:43-52 | The result is True exactly when the session that answered has status 0 and its output decodes. Two raising sessions give False. |
| WinRmExec.HttpsDecides | Backend/utils/winrmlogin.py:28-41 | When HTTPS answers, the HTTP endpoint plays no part. |
| PyText.ReprChar | Backend/utils/get_inputs.py:47-48 | A character appears as itself in `repr` exactly when it is not the quote, not a backslash and printable. |
| PyText.PyRepr | Backend/utils/get_inputs.py:47-48 | `repr(s)` uses double quotes exactly when s has a single quote and no double quote; otherwise it uses single quotes. |
| PyText.ReprOfPlain | Backend/utils/get_inputs.py:47-48 | A string of plain printable characters is quoted as `'s'`. |
| PyText.PyStr | Backend/utils/server.py:233 | `str(v)` is the string itself for a string and "None" for null. A dict is printed in braces and a list in brackets. |
| ServerRoutes.Domain | Backend/utils/server.py:101 | `form.get("domain") or ""`: the posted domain if present, else "". |
| ServerRoutes.ScanCallCases | Backend/utils/server.py:98-108 | The scanner is called exactly when all five required fields are present and non-empty, and it is called with the form's own values. |
| ServerRoutes.StartScan | Backend/utils/server.py:95-113 | The reply is 200, 400 or 500: 400 exactly when a required field is missing, 500 exactly when the scanner was called and raised. |
| ServerRoutes.DomainOptional | Backend/utils/server.py:101-105 | Whether the domain is posted does not decide whether the scan runs. Without one, the call gets "". |
| ServerRoutes.StartScanCases | Backend/utils/server.py:95-113 | 400 "Missing required fields." exactly when a field is missing; 500 "Failed to start scan." exactly when the scanner raised. Otherwise 200 with the scanner's message or "Scan started.". |
| ServerRoutes.EmptyFieldRefused | Backend/utils/server.py:105-106 | Emptying or removing any required field gives 400, whatever else the form holds. |
| ServerRoutes.DbFiles | Backend/utils/server.py:119 | The filter keeps only names ending in ".db" and never grows the list. |
| ServerRoutes.DbFilesMembers | Backend/utils/server.py:119 | A name is listed exactly when the directory has it and it ends in ".db". |
| ServerRoutes.DbFilesAppend | Backend/utils/server.py:119 | The filter keeps the listing's order: it distributes over concatenation. |
| ServerRoutes.DbFilesIdempotent | Backend/utils/server.py:119 | Filtering twice changes nothing. |
| ServerRoutes.DbFilesDrops | Backend/utils/server.py:119 | Something is dropped exactly when some entry does not end in ".db". |
| ServerRoutes.ListProjects | Backend/utils/server.py:115-123 | The reply is an error exactly when the listing raised. |
| ServerRoutes.ListProjectsMembers | Backend/utils/server.py:119-120 | A successful listing replies 200 with exactly the ".db" entries. |
| AssetReport.Canvas.constructor | Backend/utils/server.py:216 | A new canvas is on its first page with nothing drawn, in the default font Helvetica 12. |
| AssetReport.Canvas.SetFont | Backend/utils/server.py:224 | `setFont` sets the current font. |
| AssetReport.Canvas.DrawString | Backend/utils/server.py:221 | Drawing appends one line at the current page and font. |
| AssetReport.Canvas.ShowPage | Backend/utils/server.py:237 | `showPage` starts the next page, back in the default font Helvetica 12. |
| AssetReport.Truncate | Backend/utils/server.py:234 | `[:100]`: the first min(n, 100) characters of the text. |
| AssetReport.FieldTexts | Backend/utils/server.py:232-234 | One truncated `key: value` line per field, in order. |
| AssetReport.Break | Backend/utils/server.py:235-238 | A line lowers y by 15 and keeps the font. Below 40 a new page starts at height−40 in the default font, so y ≥ 40 afterwards. |
| AssetReport.DrawBodyLine | Backend/utils/server.py:234-238 | Draws one body line at x = 50 in the current font and moves the cursor and font as Break says. |
| AssetReport.CheckedAppend | Backend/utils/server.py:232-254 | Drawing two runs of lines is drawing the first run, then the second from where it ended. |
| AssetReport.DrawFields | Backend/utils/server.py:231-238 | The dict loop draws exactly the checked field lines and ends at their cursor. |
| AssetReport.DrawItem | Backend/utils/server.py:240-254 | A dict item draws one line per key, and any other item one `str(item)` line. |
| AssetReport.DrawItems | Backend/utils/server.py:239-254 | The list loop draws the items' lines in list order. |
| AssetReport.DrawSection | Backend/utils/server.py:226-258 | `draw_section` draws the title at (40, y) and lowers y by 20, then draws the body as the Section specification says. |
| AssetReport.DrawStep | Backend/utils/server.py:261-266 | For one section name, a present section is drawn and followed by a checked 15-point gap, and an absent one is skipped. A document that cannot be tested or indexed reports its Python error. |
| AssetReport.SectionsStep | Backend/utils/server.py:260-266 | One more loop step extends the drawn lines and the first error as specified. |
| AssetReport.ErrorPersists | Backend/utils/server.py:260-266 | Once a step has raised, the later names do not change the error. |
| AssetReport.DrawSections | Backend/utils/server.py:260-266 | The loop raises the first step's error, or draws the present sections in the fixed order. |
| AssetReport.AssetPdf | Backend/utils/server.py:214-266 | The whole PDF is the title line, then the sections. The page count is the specification's, or the first Python error is raised. |
| ReportLayout.CheckedTexts | Backend/utils/server.py:232-254 | Body lines keep their texts, at x = 50. They are in the starting font on the starting page and in Helvetica 12 on every page after a break. |
| ReportLayout.CheckedBounds | Backend/utils/server.py:235-238 | Starting at or above 20, every checked line is drawn between 20 and height−40. A non-empty run ends at y ≥ 40. |
| ReportLayout.CheckedOrder | Backend/utils/server.py:232-254 | Checked lines go strictly downward on a page, or onto a later page. |
| ReportLayout.SectionOrder | Backend/utils/server.py:226-258 | The same holds for a whole section. |
| ReportLayout.SectionLines | Backend/utils/server.py:226-256 | A section starts with its title at x = 40 in the section font. Every other line is at x = 50, at most 100 characters long, in Helvetica 10 on the title's page and in Helvetica 12 after a break. |
| ReportLayout.ListTextsShort | Backend/utils/server.py:244-250 | Every list line is at most 100 characters. |
| ReportLayout.SectionBounds | Backend/utils/server.py:226-258 | From a cursor within the margins, a section draws nothing below y = 20 and nothing above height−40. |
| ReportLayout.ScalarSection | Backend/utils/server.py:255-257 | A scalar body is one line 20 below the title, and the cursor drops 35 with no page-break check. |
| ReportLayout.BelowMargin | Backend/utils/server.py:228-238 | A title at y = 45 puts its first body line at y = 25, under the 40-point margin the loop otherwise keeps. |
| ReportLayout.FontAfterBreak | Backend/utils/server.py:236-253 | In a two-item list whose first line lands under 55 points, the step after it starts a new page. The second item is drawn at the top of that page in Helvetica 12, since the loop does not set the body font again. |
| ReportLayout.SectionsOrder | Backend/utils/server.py:260-266 | All sections' lines are in drawing order. |
| ReportLayout.SectionsBounds | Backend/utils/server.py:260-266 | After each section and gap, the cursor is back within the margins. |
| ReportLayout.SectionsHeadings | Backend/utils/server.py:260-262 | The headings drawn are exactly the present section names, in the fixed order. |
| ReportLayout.ReportLayout | Backend/utils/server.py:219-266 | The report starts with "Asset Report: name" at (40, height−40). Its lines are in order and lie within the page bounds. Its headings are the present sections. |
| ReportLayout.FirstErrorUniform | Backend/utils/server.py:261-262 | When every failing name raises the same message, the report raises it exactly when some name fails. |
| ReportLayout.ObjectReportSucceeds | Backend/utils/server.py:261-262 | A JSON object never raises in the section loop. |
| ReportLayout.ScalarReportRaises | Backend/utils/server.py:261 | null, a boolean or a number raises "argument of type 'X' is not iterable". |
| ReportLayout.ListReportRaises | Backend/utils/server.py:262 | A list raises exactly when it holds a section name as a string. |
| ReportLayout.StringReportRaises | Backend/utils/server.py:262 | A string raises exactly when it contains a section name. |
| CsvExport.DictGet | Backend/utils/store_data.py:81 | `.get` raises AttributeError exactly when the value is not a dict. |
| CsvExport.First | Backend/utils/store_data.py:84 | `[0]` succeeds exactly on a non-empty list or string. |
| CsvExport.RowOf | Backend/utils/store_data.py:81-89 | A row has five values. |
| CsvExport.NestedWalks | Backend/utils/store_data.py:81-83 | `d.get(o, {}).get(i, "")` succeeds exactly when the path is readable, and gives the path's value with "" defaults. |
| CsvExport.SecurityWalks | Backend/utils/store_data.py:84-85 | The Security fields are read from the first element only, with `[{}]` as the default list. |
| CsvExport.RowOfWalks | Backend/utils/store_data.py:81-89 | A row succeeds exactly when the four paths are readable, and it holds the five path values in header order. |
| CsvExport.RowOfEmpty | Backend/utils/store_data.py:81-85 | An empty document gives five "" values. |
| CsvExport.RowOfNonObject | Backend/utils/store_data.py:81 | A non-dict document raises AttributeError "'X' object has no attribute 'get'". |
| CsvExport.RowOfEmptySecurity | Backend/utils/store_data.py:84 | An empty Security list raises IndexError "list index out of range". |
| CsvExport.RowOfString | Backend/utils/store_data.py:81 | A string document raises AttributeError "'str' object has no attribute 'get'". |
| CsvExport.FailedLoginRowRaises | Backend/utils/store_data.py:40 | The string stored for a failed login makes the export raise AttributeError. |
| CsvExport.Decoded | Backend/utils/store_data.py:77-91 | Rows whose JSON fails to decode are skipped. |
| CsvExport.ProjectAllOk | Backend/utils/store_data.py:77-91 | The projection succeeds exactly when no row raises, with one result per row in order. |
| CsvExport.ProjectAllErr | Backend/utils/store_data.py:77-91 | A failure is the error of the first row that raises. |
| CsvExport.RowsOfDecoded | Backend/utils/store_data.py:77-91 | The rows are the decoded documents' rows, in database order. |
| CsvExport.RowsStep | Backend/utils/store_data.py:77-91 | One loop step skips an undecodable row, appends a row, or ends with the row's error. |
| CsvExport.Cells | Backend/utils/store_data.py:99 | `csv.writer` writes each value as its `str`, and None as "". |
| CsvExport.ExtractJsonToCsv | Backend/utils/store_data.py:57-99 | The export raises exactly the first row's error. Otherwise it writes the header row, then one line per decoded row in order. |
| CsvExport.RowsPersist | Backend/utils/store_data.py:77-91 | Once a row has raised, the later rows do not matter. |
| CsvExport.RowsShorterThanHeaders | Backend/utils/store_data.py:74-89 | Each data row has 5 values, while the header row has 8 columns. |
| JsValue.OrLaws | frontend/src/pages/AssetDetail.tsx:69 | `a \|\| b` is truthy exactly when a or b is. `\|\|` groups either way and `a \|\| a` is a. |
| JsValue.Entries | frontend/src/pages/AssetDetail.tsx:149 | `Object.entries` throws exactly on null. It gives the fields of an object, one entry per array item, and nothing for a boolean or a number. |
| JsValue.KeysValuesAppend | frontend/src/pages/AssetDetail.tsx:158-166 | `Object.keys` and `Object.values` of joined entries are the joined keys and values, in order. |
| JsValue.KeysValuesAgree | frontend/src/pages/AssetDetail.tsx:158-166 | With distinct keys, the i-th key looks up the i-th value: a header and the cell below it belong together. |
| JsValue.Lookup | frontend/src/pages/AssetDetail.tsx:218 | `item[key]` is undefined exactly when the key is absent; otherwise it is the value stored under it. |
| JsValue.Dedupe | frontend/src/pages/AssetDetail.tsx:201 | `Array.from(new Set(xs))` has the same members as xs and no duplicates. |
| JsValue.DedupeFirstSeen | frontend/src/pages/AssetDetail.tsx:201 | A Set keeps keys in order of first appearance. |
| JsValue.Flatten | frontend/src/pages/AssetDetail.tsx:201 | `flatMap` holds exactly the members of the lists. |
| JsValue.UnionStartsWithFirstRow | frontend/src/pages/AssetDetail.tsx:201 | The key union begins with the first row's keys. |
| JsValue.Quote | frontend/src/pages/AssetDetail.tsx:175 | A JSON string literal is in double quotes. |
| JsValue.Stringify | frontend/src/pages/AssetDetail.tsx:175 | `JSON.stringify` starts with '{' for an object, '[' for an array and '"' for a string. |
| ViewModel.CellFor | frontend/src/pages/AssetDetail.tsx:218 | `v ?? "—"`: the placeholder exactly for null or undefined; otherwise the value as presented. |
| ViewModel.LabelTree | frontend/src/pages/AssetDetail.tsx:23-48 | LabelValue recurses exactly into plain objects, with one child per entry in entry order; anything else is a leaf. |
| ViewModel.LeavesAreNotObjects | frontend/src/pages/AssetDetail.tsx:23-48 | No leaf of the tree is an object. |
| ViewModel.LabelTreeShowsLeaves | frontend/src/pages/AssetDetail.tsx:23-48 | The fields shown are the formatted leaves, in depth-first order. |
| ViewModel.UnionTable | frontend/src/pages/AssetDetail.tsx:201-223 | The columns are distinct and are exactly the keys of some row; every row's keys are columns. There is one row per item, with one cell per column, and each cell is `item[key] ?? "—"`. It throws exactly on a null item. |
| ViewModel.FirstRowTable | frontend/src/pages/AssetDetail.tsx:158-180 | The headers are `Object.keys(data[0] \|\| {})`, and each row's cells are its own `Object.values`. |
| ViewModel.SingleRowTable | Frontend/src/pages/AssetDetail.tsx:182-199 | An object becomes one row: `Object.keys` as headers and `Object.values` as cells, in the same order. |
| ViewModel.Collect | frontend/src/pages/AssetDetail.tsx:148-192 | A list renders exactly when each of its items renders. |
| ViewModel.EntriesItem | frontend/src/pages/AssetDetail.tsx:274-276 | One Security item in either version (Frontend/src/pages/AssetDetail.tsx:273-275 for the older one): a null item throws at `Object.entries`. Otherwise it shows exactly when each entry shows, and then one block per entry, in entry order. |
| ViewModel.ItemsTab | frontend/src/pages/AssetDetail.tsx:271-319 | The Security tab of either version, given its entry renderer (Frontend/src/pages/AssetDetail.tsx:269-324 for the older one): an empty list shows its note, and a value that is not an array and lacks `length === 0` throws. A non-empty array shows exactly when each item shows, and then shows the items' entries item after item. |
| ViewModel.ItemsTabShowsEntries | frontend/src/pages/AssetDetail.tsx:271-319 | A block is on a non-empty Security tab, of either version, exactly when it is the rendering of some entry of some item; when every entry renders as a heading, every block is one. |
| ViewModel.CollectAll | frontend/src/pages/AssetDetail.tsx:148-151 | A list of renderings shows exactly when each part shows, and then shows the parts' blocks joined in order. |
| AssetDetail.LeafCell | frontend/src/pages/AssetDetail.tsx:41-45 | Booleans show Yes/No, other falsy values "—", and anything else as it is. |
| AssetDetail.LeafPlaceholder | frontend/src/pages/AssetDetail.tsx:41-45 | A leaf shows "—" exactly for null, 0 and "". |
| AssetDetail.HardwareCell | frontend/src/pages/AssetDetail.tsx:168-176 | Booleans show Yes/No, null "—", objects and arrays `JSON.stringify`, and anything else `String(v)`. |
| AssetDetail.YesNoOrAsIs | frontend/src/pages/AssetDetail.tsx:253-257 | A present Users value shows Yes/No exactly when it is a boolean, and otherwise the value itself. |
| AssetDetail.SecurityCell | frontend/src/pages/AssetDetail.tsx:295-299 | A Security grid cell is "—" exactly for null, Yes/No for a boolean, and the value itself otherwise. |
| AssetDetail.AssetDetailsTab | frontend/src/pages/AssetDetail.tsx:135-143 | An object shows one label/value tree per key. An array shows its indexes and "length". Anything else shows nothing. |
| AssetDetail.HardwareSection | frontend/src/pages/AssetDetail.tsx:151-189 | An array section is a first-row table under its title; null throws; anything else is a label/value list. |
| AssetDetail.HardwareItem | frontend/src/pages/AssetDetail.tsx:148-151 | A null item throws at `Object.entries`. Otherwise the item shows exactly when each entry's section shows, and then it shows one section per entry, in entry order. |
| AssetDetail.HardwareTab | frontend/src/pages/AssetDetail.tsx:148-192 | A non-array throws. An array renders exactly when each item renders, and it shows the items' sections item after item. |
| AssetDetail.HardwareTabShowsEntries | frontend/src/pages/AssetDetail.tsx:148-192 | A block is on the Hardware tab exactly when it is the section of some entry of some item; every block is a titled heading. |
| AssetDetail.ListTab | frontend/src/pages/AssetDetail.tsx:197-227 | An empty list shows its note. A non-empty array shows the union table. A value without `length === 0` that is not an array throws. |
| AssetDetail.SoftwareCells | frontend/src/pages/AssetDetail.tsx:214-218 | One cell per column. A cell is "—" exactly when the key is missing or null, and 0 is kept. |
| AssetDetail.SoftwareColumns | frontend/src/pages/AssetDetail.tsx:201 | A key that only a later row has still becomes a column. |
| AssetDetail.UsersBooleans | frontend/src/pages/AssetDetail.tsx:249-257 | Users has the same columns as Software, but shows booleans as Yes/No where Software passes them through. |
| AssetDetail.EmptyListNotes | frontend/src/pages/AssetDetail.tsx:197-272 | Empty lists show "No software found.", "No users found." and "No security data found.". |
| AssetDetail.HardwareFirstRowColumns | frontend/src/pages/AssetDetail.tsx:158-166 | A column only the second row has is missing from the headers, while that row still has two cells. |
| AssetDetail.SecurityEntry | frontend/src/pages/AssetDetail.tsx:276-314 | Every shown entry is a heading with its key as title. null throws. An array is a first-row table with Security cells. An object is a label/value list. A scalar is `String(data)`. |
| AssetDetail.SecurityArrayTable | frontend/src/pages/AssetDetail.tsx:281-300 | A Security array shows exactly when no row is null. The columns are the first row's keys (none when it is falsy), there is one row per item, and each cell is "—" exactly for null, Yes/No for a boolean, else the value. |
| AssetDetail.SecurityNullThrows | frontend/src/pages/AssetDetail.tsx:306-308 | A null entry passes the `typeof "object"` test, so `Object.entries(null)` throws. |
| LegacyAssetDetail.LeafCell | Frontend/src/pages/AssetDetail.tsx:38 | `value \|\| "—"`: truthy values as they are, everything else "—". |
| LegacyAssetDetail.LeafPlaceholder | Frontend/src/pages/AssetDetail.tsx:38 | The placeholder appears exactly for falsy values, false included. |
| LegacyAssetDetail.LeavesDifferOnlyOnBooleans | Frontend/src/pages/AssetDetail.tsx:38 | The two page versions' leaves differ exactly on booleans. |
| LegacyAssetDetail.FalsyInLeafAndCell | Frontend/src/pages/AssetDetail.tsx:38 | Every falsy value but null (0, "", false) is "—" in a leaf but kept in a `??` cell. |
| LegacyAssetDetail.AssetDetailsTab | Frontend/src/pages/AssetDetail.tsx:120-122 | `Object.entries(assetDetails)` throws exactly on null; an object shows one tree per key. |
| LegacyAssetDetail.HasProperty | Frontend/src/pages/AssetDetail.tsx:127 | `"k" in v` is defined exactly on objects and arrays; on an object it tests the keys. |
| LegacyAssetDetail.NamedSection | Frontend/src/pages/AssetDetail.tsx:127-139 | A named section throws exactly on null data. Otherwise it is a heading over the label/value list of the data's entries. |
| LegacyAssetDetail.PresentCell | Frontend/src/pages/AssetDetail.tsx:295-299 | `val ?? "—"` of a present value: "—" exactly for null, the value itself otherwise. |
| LegacyAssetDetail.HardwareItem | Frontend/src/pages/AssetDetail.tsx:126-204 | A value that is neither object nor array throws. A ComputerSystem key wins, then an OperatingSystem key. Otherwise only the first entry shows, as a union table for an array and a single-row table for anything else. An empty item throws. |
| LegacyAssetDetail.HardwareTab | Frontend/src/pages/AssetDetail.tsx:126-205 | A non-array throws. An array renders exactly when each item renders, and then shows one block per item: block i is item i's rendering. |
| LegacyAssetDetail.ComputerSystemWins | Frontend/src/pages/AssetDetail.tsx:127-139 | A section with "ComputerSystem" shows only that key. |
| LegacyAssetDetail.FirstEntryOnly | Frontend/src/pages/AssetDetail.tsx:154-204 | Otherwise only the first entry is shown, as a one-row table for an object. A section with no keys throws. |
| LegacyAssetDetail.SecurityEntry | Frontend/src/pages/AssetDetail.tsx:274-319 | null throws, and a shown entry is titled by its key. An antivirus type is a label/value list. Any other array is a first-row table of `val ?? "—"` cells, and anything else a single-row table. |
| LegacyAssetDetail.AntivirusAnyCase | Frontend/src/pages/AssetDetail.tsx:277-282 | A title holding "antivirus" in any mix of ASCII cases, anywhere, is an antivirus entry and shows its data as a label/value list, arrays included. |
| LegacyAssetDetail.FirstRowColumnsLeadUnion | Frontend/src/pages/AssetDetail.tsx:155-165 | When the first row is an object with distinct keys, the first-row columns (Security arrays) lead the union columns (hardware arrays), and a key only a later row has is a union column but not a first-row one. |
| LegacyAssetDetail.HardwareArrayUnion | Frontend/src/pages/AssetDetail.tsx:154-178 | A hardware item whose first entry holds rows shows a union table: every key of every row is a column, and each row's cell there is its value under the key or "—". |
| LegacyAssetDetail.SecurityArraysDifferOnBooleans | Frontend/src/pages/AssetDetail.tsx:285-300 | Both pages lay a non-antivirus Security array out with the same columns and row lengths, and their cells differ exactly on booleans. |
| AssetPageState.SectionOr | frontend/src/pages/AssetDetail.tsx:69-73 | `data.X \|\| fallback` is the section when it is truthy, else the fallback. |
| AssetPageState.AssetPage.constructor | frontend/src/pages/AssetDetail.tsx:54-61 | The page starts loading with empty sections, no error and no download running. |
| AssetPageState.AssetAddresses | frontend/src/pages/AssetDetail.tsx:67-86 | The fetch and PDF addresses share the `/api/project/{project}/asset/` path. Split on '/', they give back the project and asset names (for names without '/'), and the PDF address ends in `/pdf/`. |
| AssetPageState.AssetPage.OnFetchSuccess | frontend/src/pages/AssetDetail.tsx:68-75 | Each section becomes the response's section or its default, and loading ends. A null body throws into the catch and sets the error. |
| AssetPageState.AssetPage.OnFetchFailure | frontend/src/pages/AssetDetail.tsx:76-80 | Sets "Failed to fetch asset details." and ends loading. |
| AssetPageState.AssetPage.StartDownload | frontend/src/pages/AssetDetail.tsx:83-95 | Does nothing without a project. Otherwise it sets downloading and requests the PDF address, saved as `{asset}_details.pdf`. |
| AssetPageState.AssetPage.FinishDownload | frontend/src/pages/AssetDetail.tsx:101 | `finally` clears downloading. |
| AssetPageState.AssetPage.View | frontend/src/pages/AssetDetail.tsx:104-323 | "Loading..." while loading, then the error if one is set. Past both, the page is blank exactly when one of the five tab bodies of its version throws, since all five are built inline in the page's render and nothing catches the throw; otherwise each tab shows its body as rendered. |
| AssetPageState.AssetPage.ButtonLabel | frontend/src/pages/AssetDetail.tsx:119 | "Generating PDF..." exactly while downloading. |
| AssetPageState.MissingSoftwareShowsNote | frontend/src/pages/AssetDetail.tsx:71 | A response without Software shows "No software found.". |
| AssetPageState.ObjectSecurityThrows | frontend/src/pages/AssetDetail.tsx:73 | A Security object (not an array) passes `\|\|`, and then the Security tab body of either version throws at `security.map`. |
| AssetPageState.ObjectSecurityBlanksPage | frontend/src/pages/AssetDetail.tsx:271 | A fetched Security object leaves the whole page blank in both versions, whatever the other sections hold. |
| AssetPageState.HardwareNotListBlanksPage | frontend/src/pages/AssetDetail.tsx:148 | A Hardware section that is not a list (`{"x": 1}` passes `\|\|`) makes `hardware.map` throw and leaves the whole page blank in both versions. |
| AssetPageState.EmptyPageShowsTabs | frontend/src/pages/AssetDetail.tsx:68-75 | After an empty response object, either version shows all five tabs: empty details and hardware, and the three "No … found." notes. |
| AssetPageState.EmptyDocumentTabs | frontend/src/pages/AssetDetail.tsx:68-75 | An empty response object leaves every section at its default, and both versions show empty tabs and the "No … found." notes. |
| ProjectsPage.DisplayNameUnchanged | frontend/src/pages/projects.tsx:77 | A name without ".db" is shown unchanged. |
| ProjectsPage.DisplayNameFirst | frontend/src/pages/projects.tsx:77 | Only the first ".db" is removed, wherever it is. |
| ProjectsPage.DisplayName | frontend/src/pages/projects.tsx:77 | A name without ".db" is shown as it is; with one, the shown name is three characters shorter. |
| ProjectsPage.ListedNameShown | Frontend/src/pages/projects.tsx:47 | A listed "name.db" is shown as "name". |
| ProjectsPage.DownloadNames | frontend/src/pages/projects.tsx:33-45 | The download requests `/projects/{name}/download` and saves `{name}_assets.pdf`. |
| ProjectsPage.ProjectList.constructor | frontend/src/pages/projects.tsx:17-18 | The page starts with no projects and no error. |
| ProjectsPage.ProjectList.OnFetchSuccess | frontend/src/pages/projects.tsx:24 | The list becomes the fetched names. |
| ProjectsPage.ProjectList.OnFetchFailure | frontend/src/pages/projects.tsx:26 | Sets "Failed to fetch projects.". |
| ProjectsPage.ProjectList.ViewRows | frontend/src/pages/projects.tsx:67-99 | There is one row per project, in the order received. Each row is labelled with its display name and links to `/projects/{name}`. Only the newer page has a download. |
| ProjectsPage.ProjectList.ViewEmpty | Frontend/src/pages/projects.tsx:37-65 | "No projects found." appears exactly when the list is empty and no error is shown. |
| ProjectsPage.FailedFetchShowsError | frontend/src/pages/projects.tsx:25-27 | A failed fetch shows the error and nothing below it. |
| ProjectsPage.FetchedListShown | Frontend/src/pages/projects.tsx:44-61 | A fetched list of databases is shown stripped, in order. |
| ScanPage.Params | frontend/src/pages/Scan.tsx:32-38 | Six fields are sent. |
| ScanPage.ParamsOrder | frontend/src/pages/Scan.tsx:32-38 | They go in the order username, password, project_name, domain, ip_input, serverip, each untrimmed. |
| ScanPage.Received | frontend/src/pages/Scan.tsx:40-44 | axios resolves exactly on a 2xx status and otherwise throws, keeping the server's message. |
| ScanPage.OutcomeCases | frontend/src/pages/Scan.tsx:46-59 | Success exactly on 200, with the server's message or "Scan started successfully.". Any other answer gives "Failed to start scan.". A throw gives the server's message or "Error connecting to the server.". |
| ScanPage.ScanForm.HandleSubmit | frontend/src/pages/Scan.tsx:16-61 | A blank required field sets "Please fill in all required fields." and nothing is sent. Otherwise the six fields are sent and the outcome sets the message. |
| ScanPage.ScanForm.constructor | frontend/src/pages/Scan.tsx:7-14 | All six fields and the message start empty, and the message type is unset. |
| ScanPage.ScanForm.Type | frontend/src/pages/Scan.tsx:79-128 | Typing sets the six fields to what was typed. |
| ScanPage.FormOfFirst | Backend/utils/server.py:98-103 | `request.form.get(k)` gives the first value sent under k. |
| ScanPage.FormOf | Backend/utils/server.py:98-103 | The posted form has exactly the names that were sent. |
| ScanPage.FormOfParams | Backend/utils/server.py:98-103 | The server reads back each field under its own name, as typed. |
| ScanPage.ServerAcceptsSubmitted | Backend/utils/server.py:105-108 | Whatever the page sends passes the server's check, and the scanner gets the untrimmed values. |
| ScanPage.ServerChecksEmptiness | Backend/utils/server.py:105 | The server checks only emptiness: fields of spaces pass it, though the page refuses them. |
| ScanPage.NotBlankNotEmpty | frontend/src/pages/Scan.tsx:19-29 | A field the page accepts as not blank is non-empty, so it passes the server's check. |
| ScanPage.AcceptedOutcome | frontend/src/pages/Scan.tsx:46-52 | For any form the server accepts, the page shows "Failed to start scan." when the scanner raised, else the scanner's message, "Scan started." when there is none, or its own default for an empty message. |
| ScanPage.SpaceIsBlank | Frontend/src/pages/Scan.tsx:17-27 | A field of one space is blank for the page. |
| ScanPage.SubmitThroughServer | Frontend/src/pages/Scan.tsx:45-58 | From a complete form: a raising scanner shows "Failed to start scan.". Otherwise the page shows the scanner's message, or "Scan started." when there is none; the page's default appears only for an empty message. |

## Left out

- HTTP, Flask routing and CORS, `send_file`, axios and blob downloads, and DOM link clicks. Each is replaced by its inputs (a fetched value, a status, a thrown error) and its outputs (a request address, a file name).
- SQLite, file writes, `os.listdir`, `datetime.now`, logging and `print`. A listing or the rows read are parameters.
- `subprocess.run` of wmiexec and `winrm.Session`. Their exit code, status code or exception is a parameter.
- The thread pool and port probing in `scan_runner.py`, and the lock in `store_data.py`. Both are concurrency; `run_scan` is a parameter of the server route.
- The reportlab and FPDF back ends and `csv.writer` quoting. The model keeps the lines, positions and cell strings.
- React rendering itself: how React shows booleans or arrays handed to a cell. Such cells are kept as the raw JSON value.
- ViewModel.UnionTable, ViewModel.Collect and AssetDetail.ListTab: a plain object handed to a cell is kept as a raw value. React instead throws "Objects are not valid as a React child" when it mounts that content. Inactive tabs are not mounted, so a Software or Users row, or a legacy table, with an object-valued field crashes the whole page when that tab is opened, where the model shows it.
- Text.AsciiLower: lower-cases ASCII capitals only. `toLowerCase` also lowers other capitals (É to é, and İ to two characters). Titles are taken to be ASCII, where the two agree.
- LegacyAssetDetail.HardwareItem: the contract does not state the rendering of an item that is itself an array (its index keys take the place of entry names).
- JSON numbers are integers only. Floating point and JS own-key ordering are not modelled: a record's keys are taken in the order given.
- JSON decoding is a parameter. A stored row is either a decoded value or a decode failure.
- PyText.PyStr: states only the shape of `str` for dicts and lists (the brackets); Python's `repr` of nested numbers and spacing is modelled but not proved equal to CPython's.
- JsValue.Stringify: states only the first character. The two-space indentation layout is modelled but not proved equal to `JSON.stringify`.
- PyText.ReprChar: non-printable characters above U+00FF other than white space are treated as printable.
- Scan pages `mainPage.tsx`, the sidebars, headers and routers: these list devices and navigate, with no logic to model.
- `Backend/utils/test.py` (an NTLM SOAP script), `logging_config.py` and `asset_discovery_tool.py`: these are startup and logging only.

## Findings

| source | as written | input that shows it | evidently intended | confidence | as-written member | corrected member |
|---|---|---|---|---|---|---|
| Backend/utils/get_inputs.py:11 | `[str(ip) for ip in range(int(start), int(end) + 1)]` formats each address as its decimal integer | `"10.0.0.1-10.0.0.1"` yields `["167772161"]`, not an address, and `get_input_data` returns it as a scan target | `["10.0.0.1"]`: dotted quads, like the CIDR and single-address branches | high, not executed | ScanTargets.ParseIpRangeAsWritten, ScanTargets.RangeTargetsAsWritten | ScanTargets.ParseIpRange |
