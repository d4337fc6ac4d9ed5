# NetNinjaScan scanning core in Dafny

This project models the deterministic logic of the NetNinjaScan scanner (the `svscan` package). It covers two files.

`svscan/scanners/network_scanner.py`:
- `parse_ports` turns a port specification such as `"80,22,100-102"` into a sorted list of distinct ports. It fails on the first segment that `int()` rejects.
- `expand_targets` turns targets into addresses. A target can be a CIDR block, an IP literal or a host name. Repeats are dropped, keeping first occurrences.
- `_scan_host` collects the ports whose probe succeeded and sorts them.
- `scan_targets` builds one record per expanded host.

`svscan/scanners/vuln_scanner.py`:
- `ServiceFingerprint`, and the banner normalisation of `_read_banner`.
- The header parser and `server` selection of `_http_server_header`.
- The port-to-probe dispatch of `fingerprint_services`.
- `match_vulnerabilities`, a nested loop over fingerprints and rules that skips rules which do not apply.
- The per-host assembly loop of `run_vuln_scan`.

Everything the network, the resolver, the `ipaddress` module or the `re` module would decide is a parameter:
- `NetworkScanner.AddressOracle`: the host list of `ip_network(t, strict=False).hosts()` (or failure), `ip_address` acceptance, and `socket.gethostbyname` (or failure).
- `NetworkScanner.Probe`: whether a TCP connect to a host and port succeeded.
- `VulnScanner.Exchange`: the decoded text a service sent, or `None` when the connection or the read raised.
- `VulnScanner.RegexEngine`: whether `re.compile(p, re.IGNORECASE)` succeeds, and whether `search` finds a match.

Modules:
- `Wrappers` holds `Option` and `Result`.
- `Text` holds the parts of Python's `str` the code relies on: `isspace`, `strip`, ASCII `lower`, `in`, `split`, base-10 `int()` (which trims a slightly smaller set of whitespace than `strip()`), and a `join` used only in proofs about `split`.
- `Sequences` holds order-preserving de-duplication, concatenation and sorting.
- `NetworkScanner` and `VulnScanner` follow the two source files.

Each method that mirrors a source loop is proved equal to a specification function. Its `ensures` is `result == F(inputs)`. The lemmas state what `F` means.

## Model

| member | source | states |
|---|---|---|
| NetworkScanner.ClassifySegment | svscan/scanners/network_scanner.py:21-30 | A segment is blank exactly when it is whitespace only. A malformed segment carries a text that `int()` rejects, including a range end that keeps an information separator after the segment's `strip()`. The converse, and the values carried, are `ClassifyUnranged` and `ClassifyRanged`. |
| NetworkScanner.ClassifyUnranged | svscan/scanners/network_scanner.py:29-30 | A non-blank segment without `-` is malformed exactly when `int()` rejects its stripped text. Otherwise it is the single port `int()` reads. |
| NetworkScanner.ClassifyRanged | svscan/scanners/network_scanner.py:24-28 | A segment with its first `-` at `i` is malformed exactly when `int()` rejects the text before or after it. The start is reported first. Otherwise it is the range between the two values. |
| NetworkScanner.ClassifyFramedNumber | svscan/scanners/network_scanner.py:21-30 | A numeral framed by whitespace, such as `" 22"` in `"80, 22"`, is the port it denotes. |
| NetworkScanner.CollectPorts | svscan/scanners/network_scanner.py:19-31 | - Fails exactly when some segment is malformed, and reports the first such segment's text; no partial list is returned. <br>- Otherwise returns `sorted(set(ports))`. The result is strictly increasing and holds n exactly when some segment names n. |
| NetworkScanner.ParsePorts | svscan/scanners/network_scanner.py:17-31 | The same properties as `CollectPorts`, stated over the comma-split segments of the specification text. With `ClassifyUnranged` and `ClassifyRanged`, it fails exactly when some segment holds a text `int()` rejects. |
| NetworkScanner.PortsOfMeaning | svscan/scanners/network_scanner.py:24-30 | A port is in the collected list exactly when one segment names it: the single number, or `a <= n <= b` for a range. A range with `a > b` names nothing. |
| NetworkScanner.ClassifyNumber | svscan/scanners/network_scanner.py:29-30 | A segment that is a decimal numeral is the single port it denotes. |
| NetworkScanner.ClassifyRange | svscan/scanners/network_scanner.py:24-28 | A segment `a-b` of two numerals is split at its first `-` into the range from `a` to `b`. |
| NetworkScanner.BlankSpecNamesNothing | svscan/scanners/network_scanner.py:20-23 | A specification of only commas and whitespace has no malformed segment and names no port. |
| NetworkScanner.PortSpecExample | svscan/scanners/network_scanner.py:17-31 | `"80,22,100-102"` parses without error to `[22, 80, 100, 101, 102]`. |
| NetworkScanner.TargetAddresses | svscan/scanners/network_scanner.py:41-61 | One pass of the first loop returns exactly `TargetHosts` for the target. |
| NetworkScanner.CollectHosts | svscan/scanners/network_scanner.py:39-61 | The first loop returns every target's addresses, in target order, repeats kept (`RawHosts`). |
| NetworkScanner.ExpandTargets | svscan/scanners/network_scanner.py:34-70 | Returns the first-occurrence subsequence of the raw list (`Expanded`), which has no duplicates. |
| NetworkScanner.RawHostsMembers | svscan/scanners/network_scanner.py:40-61 | An address is in the raw list exactly when some target yields it. |
| NetworkScanner.ExpandedMembers | svscan/scanners/network_scanner.py:62-70 | The expanded addresses are the same set as the raw addresses, that is, those some target yields. |
| NetworkScanner.ExpandedKeepsOrder | svscan/scanners/network_scanner.py:62-70 | Of two expanded addresses, the earlier one was first seen earlier in the raw list. |
| NetworkScanner.RawHostsAppend | svscan/scanners/network_scanner.py:40-61 | The raw list of `a + b` is the raw list of `a` followed by that of `b`. |
| NetworkScanner.SilentTargetIgnored | svscan/scanners/network_scanner.py:40-70 | Removing a target that yields no address leaves the expansion unchanged. |
| NetworkScanner.BlankTargetIgnored | svscan/scanners/network_scanner.py:41-43 | Empty and whitespace-only targets can be dropped without effect. |
| NetworkScanner.UnresolvableTargetIgnored | svscan/scanners/network_scanner.py:44-61 | A target that is not a valid block (with `/`), not an IP literal (without `/`), and whose name does not resolve, can be dropped without effect. |
| NetworkScanner.HostnameResolved | svscan/scanners/network_scanner.py:55-58 | A target that has no `/` and is not an IP literal contributes what name resolution yields: its one address, or nothing. |
| NetworkScanner.AddressKeptVerbatim | svscan/scanners/network_scanner.py:52-53 | An accepted IP literal contributes its stripped text unchanged. |
| NetworkScanner.NetworkExpandedToHosts | svscan/scanners/network_scanner.py:46-50 | A valid block contributes its hosts in `hosts()` order. |
| NetworkScanner.CidrFallsBackToDns | svscan/scanners/network_scanner.py:46-61 | A `/` target whose block parse fails contributes what name resolution yields: one address, or nothing. |
| NetworkScanner.RawHostsOfLiterals | svscan/scanners/network_scanner.py:52-53 | A list of stripped IP literals without `/` is its own raw list. |
| NetworkScanner.ExpandIdempotent | svscan/scanners/network_scanner.py:52-70 | When every expanded address is an IP literal, expanding the expansion gives it back unchanged. |
| NetworkScanner.ScanHost | svscan/scanners/network_scanner.py:84-95 | Returns the host and its opened ports, sorted (`HostResult`). |
| NetworkScanner.OpenedPortsCount | svscan/scanners/network_scanner.py:87-93 | An open port is collected as many times as it was listed. A closed port is never collected. `Probe` gives one outcome per (host, port), so every listing of a port shares it. |
| NetworkScanner.HostResultMeaning | svscan/scanners/network_scanner.py:84-95 | The record keeps the host. Its ports are sorted. A port is in it exactly when it was probed and its probe succeeded; a repeated port appears as often as it is listed, since `Probe` gives one outcome per (host, port). |
| NetworkScanner.CompletionOrderIrrelevant | svscan/scanners/network_scanner.py:93-94 | In whatever order the probes appended, the sorted list is the same. |
| NetworkScanner.ScanHosts | svscan/scanners/network_scanner.py:112 | One host result per address, in address order. |
| NetworkScanner.ScanTargets | svscan/scanners/network_scanner.py:98-113 | Returns `ScanReport`: the defaults when no port list is given, then expansion, then one record per host. |
| NetworkScanner.ScanReportMeaning | svscan/scanners/network_scanner.py:108-113 | - Record i is about the i-th expanded host. <br>- Its open ports are sorted and are exactly the probed ports that opened; these are the defaults when no list is given. <br>- No host is reported twice. |
| VulnScanner.NormalizeBanner | svscan/scanners/vuln_scanner.py:29-30 | Gives `None` exactly for whitespace-only text. Otherwise gives a non-empty text with no whitespace at either end. |
| VulnScanner.NormalizeBannerIdempotent | svscan/scanners/vuln_scanner.py:29-30 | A normalised banner normalises to itself. |
| VulnScanner.NormalizeBannerFrame | svscan/scanners/vuln_scanner.py:29 | Surrounding whitespace is removed and nothing else. |
| VulnScanner.UntilBlank | svscan/scanners/vuln_scanner.py:50-52 | The header block is a prefix with no empty line, ending at the first empty line or at the end. |
| VulnScanner.UntilBlankStops | svscan/scanners/vuln_scanner.py:51-52 | Whatever follows the first empty line is never read. |
| VulnScanner.HeaderLineParts | svscan/scanners/vuln_scanner.py:53-55 | A line `k:v` whose `k` has no colon stores `lower(strip(k))` with value `strip(v)`. |
| VulnScanner.ParseHeaders | svscan/scanners/vuln_scanner.py:48-55 | The loop skips the status line, stops at the first empty line, and returns `ResponseHeaders`. |
| VulnScanner.HeaderMapShape | svscan/scanners/vuln_scanner.py:53-55 | Every stored name is stripped, has no upper-case ASCII letter and no colon. Every stored value is stripped. |
| VulnScanner.HeaderKeyOrigin | svscan/scanners/vuln_scanner.py:53-55 | Every stored name comes from a line with a colon. |
| VulnScanner.HeaderKeyStored | svscan/scanners/vuln_scanner.py:53-55 | Every line with a colon stores its name. |
| VulnScanner.HeaderMapLastWins | svscan/scanners/vuln_scanner.py:55 | A repeated header keeps the value of its last line. |
| VulnScanner.HeaderMapIgnores | svscan/scanners/vuln_scanner.py:53 | A line without a colon changes nothing, wherever it stands. |
| VulnScanner.StatusLineIgnored | svscan/scanners/vuln_scanner.py:49-50 | The first line does not affect the headers. |
| VulnScanner.ServerHeaderExample | svscan/scanners/vuln_scanner.py:49-58 | `"HTTP/1.0 200 OK\r\nServer: nginx\r\n\r\n"` gives `{"server": "nginx"}`, and the probe selects `"nginx"`. |
| VulnScanner.SelectServer | svscan/scanners/vuln_scanner.py:56-58 | Succeeds exactly when `server` is present and non-empty, and then returns that value with all headers. |
| VulnScanner.HttpServerHeader | svscan/scanners/vuln_scanner.py:39-65 | Returns `HttpProbe`: `None` on a failed exchange, else the selected server and headers. |
| VulnScanner.HttpProbeMeaning | svscan/scanners/vuln_scanner.py:47-58 | A successful probe's server is the non-empty, stripped `server` entry of the headers parsed from the reply. |
| VulnScanner.StrategyFor | svscan/scanners/vuln_scanner.py:93-101 | 80, 8080 and 8000 go to http, 22 to ssh, 21 to ftp, 25 to smtp, and no other port has a probe. |
| VulnScanner.PortFingerprintMeaning | svscan/scanners/vuln_scanner.py:72-91 | A fingerprint carries its port and is well formed: <br>- the service is the dispatched one and the evidence is non-empty and stripped; <br>- HTTP fingerprints carry all parsed headers with `server` as evidence; <br>- banner fingerprints carry empty meta and the stripped banner. |
| VulnScanner.PortFingerprintNone | svscan/scanners/vuln_scanner.py:72-101 | Undispatched ports give nothing. A dispatched port gives nothing exactly when its probe fails. |
| VulnScanner.FingerprintsMeaning | svscan/scanners/vuln_scanner.py:68-105 | Every fingerprint is for an open port, is well formed, and is what that port's probe yields. |
| VulnScanner.FingerprintsComplete | svscan/scanners/vuln_scanner.py:68-105 | Every open port whose dispatched probe succeeds has its fingerprint in the list. |
| VulnScanner.OnePerPort | svscan/scanners/vuln_scanner.py:93-101 | With distinct open ports, no two fingerprints share a port. |
| VulnScanner.BannerFingerprint | svscan/scanners/vuln_scanner.py:78-91 | A banner, when there is one, becomes a fingerprint of the given service with empty meta. |
| VulnScanner.HttpFingerprint | svscan/scanners/vuln_scanner.py:72-76 | A selected server becomes an `http` fingerprint whose meta holds the headers. |
| VulnScanner.FingerprintServices | svscan/scanners/vuln_scanner.py:68-105 | Returns `Fingerprints`: the dispatched probes' results, in port order. `FingerprintsMeaning` and `FingerprintsComplete` state that it holds exactly the successful probes' fingerprints. |
| VulnScanner.RuleSkipped | svscan/scanners/vuln_scanner.py:117-137 | No finding when any of these holds: <br>- the service differs; <br>- the type or pattern is missing or empty; <br>- the pattern does not compile; <br>- the type is neither `banner_regex` nor `header_regex`; <br>- a header rule's header is absent or the fingerprint has no meta. |
| VulnScanner.RuleFindingMeaning | svscan/scanners/vuln_scanner.py:117-150 | - A rule fires exactly when the service matches, the type and pattern are non-empty, the pattern compiles, and the search succeeds on a non-empty candidate. <br>- The finding takes the rule's id, severity (default "info"), description (default "") and references (default []), the fingerprint's service and port, and the candidate as evidence. |
| VulnScanner.FindingsBound | svscan/scanners/vuln_scanner.py:115-116 | There are no more findings than fingerprint-rule pairs. |
| VulnScanner.FindingOrigin | svscan/scanners/vuln_scanner.py:115-150 | Every finding is what one rule yields for one fingerprint. |
| VulnScanner.FindingComplete | svscan/scanners/vuln_scanner.py:113-151 | Every rule that fires on a fingerprint has its finding in the result. |
| VulnScanner.FindingProvenance | svscan/scanners/vuln_scanner.py:139-150 | - A finding's service and port are a fingerprint's. <br>- Its id and severity are those of a rule for that service. <br>- Its evidence is non-empty. |
| VulnScanner.FindingsAppend | svscan/scanners/vuln_scanner.py:115-116 | Findings are fingerprint-major: more fingerprints append their findings after the earlier ones. |
| VulnScanner.MatchRules | svscan/scanners/vuln_scanner.py:116-151 | The inner loop over the rules returns `RuleFindings` for one fingerprint: one finding per applicable, compiling, matching rule, in rule order. |
| VulnScanner.MatchVulnerabilities | svscan/scanners/vuln_scanner.py:113-151 | The nested loop with its `continue`s returns `Findings`: every rule on every fingerprint, rule-minor, without de-duplication. `FindingOrigin` and `FindingComplete` state that it holds exactly the firing rules' findings. |
| VulnScanner.VulnReportsMeaning | svscan/scanners/vuln_scanner.py:164-168 | Each record keeps its host and open ports unchanged. A host with no open ports has no findings. |
| VulnScanner.FindingOnOpenPort | svscan/scanners/vuln_scanner.py:164-168 | Every finding of a host is about one of its open ports that has a probe, and names that probe's service. |
| VulnScanner.VulnReportMeaning | svscan/scanners/vuln_scanner.py:154-169 | One record per expanded host, in expansion order. Each has sorted open ports, exactly the requested ports that opened. |
| VulnScanner.AssembleReports | svscan/scanners/vuln_scanner.py:163-169 | The assembly loop returns `VulnReports`. |
| VulnScanner.RunVulnScan | svscan/scanners/vuln_scanner.py:154-169 | Returns `VulnReport`: a scan, then fingerprinting and matching per host. |
| Text.ParseIntOfDigits | svscan/scanners/network_scanner.py:26-30 | `int()` reads a decimal numeral as the number it denotes. |
| Text.ParseIntRejects | svscan/scanners/network_scanner.py:26-30 | `int()` rejects a text whose stripped form holds a character that is not a digit, a sign or `_`. |
| Text.ParseIntOfStripped | svscan/scanners/network_scanner.py:26-30 | On text without the information separators U+001C..U+001F, `int()` reads exactly what `strip()` leaves. |
| Text.ParseIntRejectsTrailingSeparator | svscan/scanners/network_scanner.py:26-27 | `int()` rejects a numeral followed by an information separator, although `strip()` would remove that separator. |
| NetworkScanner.SeparatorInRangeMalformed | svscan/scanners/network_scanner.py:21-27 | A separator just before the `-` of a range survives the segment's `strip()`, so the start text is malformed and no range is produced. |
| NetworkScanner.SeparatorRangeExample | svscan/scanners/network_scanner.py:21-27 | The segment `"1\x1c-5"` is malformed with start text `"1\x1c"`; it does not name the ports 1 to 5. |
| Sequences.DedupKeepsOrder | svscan/scanners/network_scanner.py:63-70 | De-duplication with a `seen` set keeps first-occurrence order. |
| Sequences.SortOrderIndependent | svscan/scanners/network_scanner.py:94 | Two lists that are permutations of each other sort to the same list. |

## Left out

- Sockets, connects, reads and writes, `asyncio` tasks, the semaphore and timeouts are not modelled. Their outcomes are the `Probe` and `Exchange` parameters.
- The order in which concurrent tasks finish is not modelled. Open ports and fingerprints are appended in input order. `CompletionOrderIrrelevant` shows the sorted open-port list does not depend on that order. The fingerprint list is not sorted by the source, so its order under real scheduling is not captured.
- `ipaddress.ip_network(...).hosts()`, `ip_address` and `socket.gethostbyname` are oracles. Only `gaierror` is modelled as a failed resolution; other exceptions are not.
- `re.compile` and `re.search` with `IGNORECASE` are oracles. No regular expression semantics is modelled.
- VulnScanner.RegexEngine: a pattern on which `re.compile` raises an exception other than `re.error` (such as `OverflowError` for a repeat count beyond the engine's maximum) is not modelled. In the code that exception escapes `match_vulnerabilities` and `run_vuln_scan`; the model has no crash outcome, so such a pattern can only be modelled as one that compiles or one that is skipped.
- NetworkScanner.Probe and VulnScanner.Exchange: repeated attempts on one (host, port) are assumed to agree. The code makes one independent connection per list occurrence, so for `ports = [80, 80]` it could open 80 once and time out once; the model gives `[80, 80]` or `[]`. `parse_ports` never yields a repeated port, so this matters only for a port list passed in directly.
- `load_vuln_db` (a resource read plus a JSON decode) is not modelled; the rule list is a parameter.
- JSON values of a type the code would crash on are not modelled, such as a `null` `match` or a non-string `header`. Rule fields are `Option` values for present or absent keys.
- Byte decoding with `errors="ignore"` and the read limits of 256 and 2048 bytes are not modelled. The decoded text is the input.
- `Text.Lower` lower-cases ASCII letters only, while Python's `str.lower()` also folds other letters.
- `Text.ParseInt` ignores the same whitespace as `strip()`, except the information separators U+001C..U+001F, which `int()` does not skip. It accepts ASCII digits only. Python's `int()` also accepts other Unicode decimal digits and has a 4300-digit limit; neither is modelled.
- `sorted(...)` and `list.sort()` are modelled by the sort function `Sequences.SortInts`, not as an in-place algorithm.
- `svscan/cli.py`, `svscan/reporting/serialize.py` and `svscan/utils/targets.py` are not part of this model.
- The code does not restrict ports to 1..65535. The model follows the code: any integer `int()` accepts is a port, and ranges are not clipped.
- `fingerprint_services` runs for every host, even one without open ports. The model follows the code; the result is the same, because no port means no fingerprint and no finding.
- The code emits an HTTP fingerprint only when `server` is present and non-empty, not merely present. The model follows the code (`SelectServer`).
- The CIDR fallback goes straight to name resolution. A `/` target whose block parse fails is resolved as a name, without an `ip_address` check (`CidrFallsBackToDns`).
