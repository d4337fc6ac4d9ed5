/**
 * Model of svscan/scanners/vuln_scanner.py: service fingerprinting of the open
 * ports of a host (HTTP `Server` header, or the first words a service sends),
 * signature matching of the fingerprints against a rule list, and the per-host
 * assembly of the report. What the network returns is given as an oracle, and
 * so are compiling and searching with a regular expression.
 */
module VulnScanner {
  import opened Wrappers
  import opened Text
  import opened Sequences
  import opened NetworkScanner

  // ------------------------------------------------------------------
  // ServiceFingerprint
  // ------------------------------------------------------------------

  /** The `meta` dict: `{}` for banner services, `{"headers": headers}` for HTTP. */
  datatype Meta = NoMeta | HeaderMeta(headers: map<string, string>)

  /** `ServiceFingerprint(service, port, evidence, meta)`. */
  datatype Fingerprint = Fingerprint(service: string, port: int, evidence: string, meta: Meta)

  /**
   * What a service sends back, already decoded with `errors="ignore"`:
   * `httpResponse(host, port)` is the text read after the `GET /` request, and
   * `banner(host, port)` the text read after connecting; `None` when the
   * connection, the write or the read raised (including a timeout).
   */
  datatype Exchange = Exchange(
    httpResponse: (string, int) -> Option<string>,
    banner: (string, int) -> Option<string>)

  // ------------------------------------------------------------------
  // _read_banner
  // ------------------------------------------------------------------

  /** The strip-then-empty-means-none step of `_read_banner`. */
  function NormalizeBanner(data: string): (b: Option<string>)
    ensures b.None? <==> AllSpace(data)
    ensures b.Some? ==> b.value != [] && Trimmed(b.value) && |b.value| <= |data|
  {
    var banner := Strip(data);
    if banner == [] then None else Some(banner)
  }

  /** A normalised banner is kept as it is by a second normalisation. */
  lemma NormalizeBannerIdempotent(data: string)
    requires NormalizeBanner(data).Some?
    ensures NormalizeBanner(NormalizeBanner(data).value) == NormalizeBanner(data)
  {
    StripIdempotent(data);
  }

  /** A banner with surrounding whitespace normalises to its text. */
  lemma NormalizeBannerFrame(p: string, m: string, q: string)
    requires AllSpace(p) && AllSpace(q) && Trimmed(m) && m != []
    ensures NormalizeBanner(p + m + q) == Some(m)
  {
    StripFrame(p, m, q);
  }

  /** `_read_banner(host, port)`. */
  function ReadBanner(ex: Exchange, host: string, port: int): Option<string>
  {
    match ex.banner(host, port)
    case None => None
    case Some(data) => NormalizeBanner(data)
  }

  // ------------------------------------------------------------------
  // _http_server_header
  // ------------------------------------------------------------------

  /** The lines after the status line and before the first empty line. */
  function UntilBlank(lines: seq<string>): (block: seq<string>)
    ensures |block| <= |lines| && block == lines[..|block|]
    ensures forall i | 0 <= i < |block| :: block[i] != []
    ensures |block| < |lines| ==> lines[|block|] == []
  {
    if lines == [] || lines[0] == [] then []
    else [lines[0]] + UntilBlank(lines[1..])
  }

  /** Everything after the first empty line is never looked at. */
  lemma UntilBlankStops(a: seq<string>, b: seq<string>)
    ensures UntilBlank(a + [[]] + b) == UntilBlank(a)
  {
    var s := a + [[]] + b;
    var r, t := UntilBlank(s), UntilBlank(a);
    if |t| < |a| {
      assert s[|t|] == a[|t|] == [];
      HeaderPrefixUnique(s, t);
    } else {
      assert s[|a|] == [];
      assert s[..|a|] == a;
      HeaderPrefixUnique(s, t);
    }
  }

  /** A prefix free of empty lines that ends at an empty line (or at the end) is the header block. */
  lemma {:induction false} HeaderPrefixUnique(lines: seq<string>, t: seq<string>)
    requires |t| <= |lines| && t == lines[..|t|]
    requires forall i | 0 <= i < |t| :: t[i] != []
    requires |t| < |lines| ==> lines[|t|] == []
    ensures UntilBlank(lines) == t
  {
  }

  /** The index of the first `:` of a header line: `line.split(":", 1)` cuts there. */
  function ColonAt(line: string): (i: nat)
    requires ':' in line
    ensures i < |line| && line[i] == ':' && ':' !in line[..i]
  {
    FirstIndex(line, ':')
  }

  /** `k.strip().lower()` for the text before the first colon. */
  function HeaderKey(line: string): string
    requires ':' in line
  {
    Lower(Strip(line[..ColonAt(line)]))
  }

  /** `v.strip()` for the text after the first colon. */
  function HeaderValue(line: string): string
    requires ':' in line
  {
    Strip(line[ColonAt(line) + 1..])
  }

  /** One turn of the header loop: a line with a colon sets its key, any other line is ignored. */
  function AddHeader(headers: map<string, string>, line: string): map<string, string>
  {
    if ':' in line then headers[HeaderKey(line) := HeaderValue(line)] else headers
  }

  /** The `headers` dict after the loop has taken every line of `block`, in order. */
  function HeaderMap(block: seq<string>): map<string, string>
  {
    if block == [] then map[]
    else AddHeader(HeaderMap(block[..|block| - 1]), block[|block| - 1])
  }

  lemma HeaderMapStep(lines: seq<string>, i: nat)
    requires i < |lines|
    ensures HeaderMap(lines[..i + 1]) == AddHeader(HeaderMap(lines[..i]), lines[i])
  {
    assert lines[..i + 1][..i] == lines[..i];
  }

  /** The header lines of a response: after the status line, up to the first empty line. */
  function HeaderLines(raw: string): seq<string>
  {
    UntilBlank(Split(raw, "\r\n")[1..])
  }

  /** The `headers` dict `_http_server_header` builds from the response text. */
  function ResponseHeaders(raw: string): map<string, string>
  {
    HeaderMap(HeaderLines(raw))
  }

  /** A header name as the parser stores it: stripped, lower-cased, without a colon. */
  predicate NormalKey(k: string)
  {
    Trimmed(k) && NoUpper(k) && ':' !in k
  }

  lemma HeaderLineShape(line: string)
    requires ':' in line
    ensures NormalKey(HeaderKey(line))
    ensures Trimmed(HeaderValue(line))
  {
    var before := line[..ColonAt(line)];
    if ':' in Strip(before) {
      StripChars(before, ':');
    }
    LowerShape(Strip(before), ':');
  }

  /** Every stored name is normalised and every stored value is stripped. */
  lemma {:induction false} HeaderMapShape(block: seq<string>)
    ensures forall k | k in HeaderMap(block) :: NormalKey(k) && Trimmed(HeaderMap(block)[k])
  {
    if block != [] {
      var line := block[|block| - 1];
      HeaderMapShape(block[..|block| - 1]);
      if ':' in line {
        HeaderLineShape(line);
      }
    }
  }

  /** Every stored name comes from a line with a colon that carries it. */
  lemma {:induction false} HeaderKeyOrigin(block: seq<string>, k: string) returns (i: nat)
    requires k in HeaderMap(block)
    ensures i < |block| && ':' in block[i] && HeaderKey(block[i]) == k
  {
    var n := |block| - 1;
    var init := block[..n];
    if k in HeaderMap(init) && !(':' in block[n] && HeaderKey(block[n]) == k) {
      i := HeaderKeyOrigin(init, k);
      assert block[i] == init[i];
    } else {
      i := n;
    }
  }

  /** Every line with a colon stores its name. */
  lemma {:induction false} HeaderKeyStored(block: seq<string>, i: nat)
    requires i < |block| && ':' in block[i]
    ensures HeaderKey(block[i]) in HeaderMap(block)
  {
    var n := |block| - 1;
    if i < n {
      assert block[..n][i] == block[i];
      HeaderKeyStored(block[..n], i);
    }
  }

  lemma AddHeaderSets(headers: map<string, string>, line: string)
    requires ':' in line
    ensures HeaderKey(line) in AddHeader(headers, line)
    ensures AddHeader(headers, line)[HeaderKey(line)] == HeaderValue(line)
  {
  }

  lemma AddHeaderKeeps(headers: map<string, string>, line: string, key: string)
    requires key in headers
    requires ':' in line ==> HeaderKey(line) != key
    ensures key in AddHeader(headers, line) && AddHeader(headers, line)[key] == headers[key]
  {
  }

  /** A repeated header keeps the value of its last line. */
  lemma {:induction false} HeaderMapLastWins(block: seq<string>, i: nat)
    requires i < |block| && ':' in block[i]
    requires forall j | i < j < |block| :: ':' in block[j] ==> HeaderKey(block[j]) != HeaderKey(block[i])
    ensures HeaderKey(block[i]) in HeaderMap(block)
    ensures HeaderMap(block)[HeaderKey(block[i])] == HeaderValue(block[i])
  {
    var n := |block| - 1;
    var init := block[..n];
    assert HeaderMap(block) == AddHeader(HeaderMap(init), block[n]);
    if i < n {
      assert init[i] == block[i];
      forall j | i < j < n
        ensures ':' in init[j] ==> HeaderKey(init[j]) != HeaderKey(init[i])
      {
        assert init[j] == block[j];
      }
      HeaderMapLastWins(init, i);
      AddHeaderKeeps(HeaderMap(init), block[n], HeaderKey(block[i]));
    } else {
      AddHeaderSets(HeaderMap(init), block[n]);
    }
  }

  /** A line without a colon leaves the dict as it was, wherever it stands. */
  lemma {:induction false} HeaderMapIgnores(a: seq<string>, line: string, b: seq<string>)
    requires ':' !in line
    ensures HeaderMap(a + [line] + b) == HeaderMap(a + b)
    decreases |b|
  {
    if b == [] {
      assert (a + [line] + b)[..|a|] == a;
      assert a + b == a;
    } else {
      var init := b[..|b| - 1];
      assert (a + [line] + b)[..|a + [line] + b| - 1] == a + [line] + init;
      assert (a + b)[..|a + b| - 1] == a + init;
      HeaderMapIgnores(a, line, init);
    }
  }

  /** The status line is skipped: any two status lines give the same headers. */
  lemma StatusLineIgnored(status1: string, status2: string, rest: string)
    requires !Contains(status1, "\r\n") && !Contains(status2, "\r\n")
    ensures ResponseHeaders(status1 + "\r\n" + rest) == ResponseHeaders(status2 + "\r\n" + rest)
  {
    SplitFirstLine(status1, rest);
    SplitFirstLine(status2, rest);
    assert Split(status1 + "\r\n" + rest, "\r\n")[1..] == Split(rest, "\r\n");
    assert Split(status2 + "\r\n" + rest, "\r\n")[1..] == Split(rest, "\r\n");
  }

  lemma ServerKey(k: string)
    requires k == "Server"
    ensures Lower(Strip(k)) == "server"
  {
    assert Trimmed(k);
    StripTrimmed(k);
  }

  lemma ServerValue(v: string)
    requires v == " nginx"
    ensures Strip(v) == "nginx"
  {
    assert Trimmed("nginx");
    StripFrame(" ", "nginx", "");
    assert " " + "nginx" + "" == v;
  }

  /** A line `k:v` whose name part has no colon splits at that colon. */
  lemma HeaderLineParts(k: string, v: string)
    requires ':' !in k
    ensures ':' in k + ":" + v
    ensures HeaderKey(k + ":" + v) == Lower(Strip(k))
    ensures HeaderValue(k + ":" + v) == Strip(v)
  {
    var line := k + ":" + v;
    assert line[|k|] == ':';
    assert line[..|k|] == k;
    assert line[|k| + 1..] == v;
    FirstIndexUnique(line, ':', |k|);
  }

  lemma ServerLine(line: string, k: string, v: string)
    requires line == "Server: nginx" && k == "Server" && v == " nginx"
    ensures ':' in line && HeaderKey(line) == "server" && HeaderValue(line) == "nginx"
  {
    assert line == k + ":" + v;
    assert ':' !in k;
    HeaderLineParts(k, v);
    ServerKey(k);
    ServerValue(v);
  }

  lemma EmptyLines(r: string)
    requires r == "\r\n"
    ensures Split(r, "\r\n") == ["", ""]
  {
    assert r == "" + "\r\n" + "";
    NoCrlfWithoutCr("");
    SplitFirstLine("", "");
    assert Find("", "\r\n") == None;
  }

  lemma TwoLineSplit(raw: string, status: string, line: string)
    requires '\r' !in status && '\r' !in line
    requires raw == status + "\r\n" + (line + "\r\n" + "\r\n")
    ensures Split(raw, "\r\n")[1..] == [line, "", ""]
  {
    NoCrlfWithoutCr(status);
    NoCrlfWithoutCr(line);
    SplitFirstLine(status, line + "\r\n" + "\r\n");
    SplitFirstLine(line, "\r\n");
    EmptyLines("\r\n");
  }

  lemma OneLineBlock(lines: seq<string>, line: string)
    requires lines == [line, "", ""] && ':' in line
    ensures HeaderMap(UntilBlank(lines)) == map[HeaderKey(line) := HeaderValue(line)]
  {
    assert line != [];
    HeaderPrefixUnique(lines, [line]);
    assert HeaderMap([line]) == AddHeader(HeaderMap([]), line);
  }

  /** A reply of a status line and one header line holds just that header. */
  lemma SingleHeaderResponse(raw: string, status: string, line: string)
    requires '\r' !in status && '\r' !in line && ':' in line
    requires raw == status + "\r\n" + (line + "\r\n" + "\r\n")
    ensures ResponseHeaders(raw) == map[HeaderKey(line) := HeaderValue(line)]
  {
    TwoLineSplit(raw, status, line);
    OneLineBlock(Split(raw, "\r\n")[1..], line);
  }

  /** For `ServerHeaderExample`: the example reply is a status line, one header line and an empty line. */
  lemma ExampleResponse(raw: string, status: string, line: string)
    requires raw == "HTTP/1.0 200 OK\r\nServer: nginx\r\n\r\n"
    requires status == "HTTP/1.0 200 OK" && line == "Server: nginx"
    ensures raw == status + "\r\n" + (line + "\r\n" + "\r\n")
    ensures '\r' !in status && '\r' !in line
  {
  }

  /** `ServerHeaderExample` with its lines passed in, so that each literal is unfolded once. */
  lemma ServerExampleFor(raw: string, status: string, line: string)
    requires raw == "HTTP/1.0 200 OK\r\nServer: nginx\r\n\r\n"
    requires status == "HTTP/1.0 200 OK" && line == "Server: nginx"
    ensures ResponseHeaders(raw) == map["server" := "nginx"]
  {
    ExampleResponse(raw, status, line);
    ServerLine(line, "Server", " nginx");
    SingleHeaderResponse(raw, status, line);
  }

  /** A reply with one `Server` line yields that server and a one-entry header dict. */
  lemma ServerHeaderExample(raw: string)
    requires raw == "HTTP/1.0 200 OK\r\nServer: nginx\r\n\r\n"
    ensures ResponseHeaders(raw) == map["server" := "nginx"]
    ensures SelectServer(ResponseHeaders(raw)) == Some(("nginx", map["server" := "nginx"]))
  {
    ServerExampleFor(raw, "HTTP/1.0 200 OK", "Server: nginx");
  }

  /** The header loop of `_http_server_header`: skip the status line, stop at the first empty line. */
  method ParseHeaders(raw: string) returns (headers: map<string, string>)
    ensures headers == ResponseHeaders(raw)
  {
    var lines := Split(raw, "\r\n");
    var body := lines[1..];
    headers := map[];
    var i := 0;
    while i < |body|
      invariant i <= |body|
      invariant forall j | 0 <= j < i :: body[j] != []
      invariant headers == HeaderMap(body[..i])
    {
      var line := body[i];
      if line == [] {
        break;
      }
      HeaderMapStep(body, i);
      headers := AddHeader(headers, line);
      i := i + 1;
    }
    HeaderPrefixUnique(body, body[..i]);
  }

  /** `server = headers.get("server")`; a non-empty value yields `(server, headers)`. */
  function SelectServer(headers: map<string, string>): (r: Option<(string, map<string, string>)>)
    ensures r.Some? <==> "server" in headers && headers["server"] != []
    ensures r.Some? ==> r.value.0 == headers["server"] && r.value.1 == headers
  {
    if "server" in headers && headers["server"] != [] then Some((headers["server"], headers)) else None
  }

  /** What `_http_server_header(host, port)` returns. */
  function HttpProbe(ex: Exchange, host: string, port: int): Option<(string, map<string, string>)>
  {
    match ex.httpResponse(host, port)
    case None => None
    case Some(raw) => SelectServer(ResponseHeaders(raw))
  }

  /** `_http_server_header`: send the request, parse the reply's headers, select `server`. */
  method HttpServerHeader(ex: Exchange, host: string, port: int) returns (r: Option<(string, map<string, string>)>)
    ensures r == HttpProbe(ex, host, port)
  {
    var data := ex.httpResponse(host, port);
    if data.None? {
      return None;
    }
    var headers := ParseHeaders(data.value);
    var server := if "server" in headers then Some(headers["server"]) else None;
    if server.Some? && server.value != [] {
      return Some((server.value, headers));
    }
    return None;
  }

  /** The HTTP probe succeeds only with a non-empty `server` value, which is stripped and stored under its key. */
  lemma HttpProbeMeaning(ex: Exchange, host: string, port: int)
    requires HttpProbe(ex, host, port).Some?
    ensures ex.httpResponse(host, port).Some?
    ensures HttpProbe(ex, host, port).value.1 == ResponseHeaders(ex.httpResponse(host, port).value)
    ensures "server" in HttpProbe(ex, host, port).value.1
    ensures HttpProbe(ex, host, port).value.0 == HttpProbe(ex, host, port).value.1["server"]
    ensures HttpProbe(ex, host, port).value.0 != [] && Trimmed(HttpProbe(ex, host, port).value.0)
  {
    HeaderMapShape(HeaderLines(ex.httpResponse(host, port).value));
  }

  // ------------------------------------------------------------------
  // fingerprint_services
  // ------------------------------------------------------------------

  /** The probes `fingerprint_services` can start. */
  datatype Strategy = Http | Ssh | Ftp | Smtp

  /** The fixed port-to-probe dispatch of the task loop. */
  function StrategyFor(port: int): (s: Option<Strategy>)
    ensures s == Some(Http) <==> port in {80, 8080, 8000}
    ensures s == Some(Ssh) <==> port == 22
    ensures s == Some(Ftp) <==> port == 21
    ensures s == Some(Smtp) <==> port == 25
    ensures s.None? <==> port !in {80, 8080, 8000, 22, 21, 25}
  {
    if port == 80 || port == 8080 || port == 8000 then Some(Http)
    else if port == 22 then Some(Ssh)
    else if port == 21 then Some(Ftp)
    else if port == 25 then Some(Smtp)
    else None
  }

  /** The `service` name each probe records. */
  function ServiceName(s: Strategy): string
  {
    match s
    case Http => "http"
    case Ssh => "ssh"
    case Ftp => "ftp"
    case Smtp => "smtp"
  }

  /** The fingerprint the probe started for `port` appends, if any. */
  function PortFingerprint(ex: Exchange, host: string, port: int): Option<Fingerprint>
  {
    match StrategyFor(port)
    case None => None
    case Some(Http) =>
      (match HttpProbe(ex, host, port)
       case None => None
       case Some(res) => Some(Fingerprint("http", port, res.0, HeaderMeta(res.1))))
    case Some(s) =>
      (match ReadBanner(ex, host, port)
       case None => None
       case Some(banner) => Some(Fingerprint(ServiceName(s), port, banner, NoMeta)))
  }

  /** The list `fingerprint_services` returns, with the probes finishing in port order. */
  function Fingerprints(ex: Exchange, host: string, openPorts: seq<int>): seq<Fingerprint>
  {
    if openPorts == [] then []
    else
      Fingerprints(ex, host, openPorts[..|openPorts| - 1])
      + OptionToSeq(PortFingerprint(ex, host, openPorts[|openPorts| - 1]))
  }

  /**
   * What a fingerprint says about where it came from: its service is the one
   * the dispatch assigns to its port; HTTP evidence is the stripped, non-empty
   * `server` value of the headers kept in `meta`; banner evidence is the
   * stripped, non-empty text the service sent, with empty `meta`.
   */
  predicate WellFormed(ex: Exchange, host: string, fp: Fingerprint)
  {
    && StrategyFor(fp.port).Some?
    && fp.service == ServiceName(StrategyFor(fp.port).value)
    && fp.evidence != [] && Trimmed(fp.evidence)
    && (if StrategyFor(fp.port) == Some(Http) then
          && fp.meta.HeaderMeta?
          && ex.httpResponse(host, fp.port).Some?
          && fp.meta.headers == ResponseHeaders(ex.httpResponse(host, fp.port).value)
          && "server" in fp.meta.headers && fp.meta.headers["server"] == fp.evidence
        else
          && fp.meta == NoMeta
          && ex.banner(host, fp.port).Some?
          && fp.evidence == Strip(ex.banner(host, fp.port).value))
  }

  lemma PortFingerprintMeaning(ex: Exchange, host: string, port: int)
    requires PortFingerprint(ex, host, port).Some?
    ensures PortFingerprint(ex, host, port).value.port == port
    ensures WellFormed(ex, host, PortFingerprint(ex, host, port).value)
  {
    if StrategyFor(port) == Some(Http) {
      HttpProbeMeaning(ex, host, port);
    }
  }

  /** Ports outside the dispatch table, and probes that fail, yield nothing. */
  lemma PortFingerprintNone(ex: Exchange, host: string, port: int)
    ensures port !in {80, 8080, 8000, 22, 21, 25} ==> PortFingerprint(ex, host, port).None?
    ensures port in {80, 8080, 8000} ==> (PortFingerprint(ex, host, port).None? <==> HttpProbe(ex, host, port).None?)
    ensures port in {22, 21, 25} ==> (PortFingerprint(ex, host, port).None? <==> ReadBanner(ex, host, port).None?)
  {
  }

  /** Every fingerprint comes from an open port and is well formed. */
  lemma {:induction false} FingerprintsMeaning(ex: Exchange, host: string, openPorts: seq<int>, i: nat)
    requires i < |Fingerprints(ex, host, openPorts)|
    ensures Fingerprints(ex, host, openPorts)[i].port in openPorts
    ensures WellFormed(ex, host, Fingerprints(ex, host, openPorts)[i])
    ensures PortFingerprint(ex, host, Fingerprints(ex, host, openPorts)[i].port) == Some(Fingerprints(ex, host, openPorts)[i])
  {
    var init := openPorts[..|openPorts| - 1];
    var last := openPorts[|openPorts| - 1];
    if i < |Fingerprints(ex, host, init)| {
      FingerprintsMeaning(ex, host, init, i);
      assert Fingerprints(ex, host, openPorts)[i] == Fingerprints(ex, host, init)[i];
    } else {
      PortFingerprintMeaning(ex, host, last);
    }
  }

  /** A port missing from a list is the port of none of its fingerprints. */
  lemma FreshPortNotFingerprinted(ex: Exchange, host: string, ports: seq<int>, p: int)
    requires p !in ports
    ensures forall i | 0 <= i < |Fingerprints(ex, host, ports)| :: Fingerprints(ex, host, ports)[i].port != p
  {
    forall i | 0 <= i < |Fingerprints(ex, host, ports)|
      ensures Fingerprints(ex, host, ports)[i].port != p
    {
      FingerprintsMeaning(ex, host, ports, i);
    }
  }

  /** Every open port whose probe succeeds contributes its fingerprint (the converse of `FingerprintsMeaning`). */
  lemma {:induction false} FingerprintsComplete(ex: Exchange, host: string, openPorts: seq<int>, p: int)
    requires p in openPorts && PortFingerprint(ex, host, p).Some?
    ensures PortFingerprint(ex, host, p).value in Fingerprints(ex, host, openPorts)
  {
    var init := openPorts[..|openPorts| - 1];
    var last := openPorts[|openPorts| - 1];
    var extra := OptionToSeq(PortFingerprint(ex, host, last));
    assert Fingerprints(ex, host, openPorts) == Fingerprints(ex, host, init) + extra;
    if p != last {
      InInit(openPorts, p);
      FingerprintsComplete(ex, host, init, p);
    }
  }

  /** A port listed once gets at most one fingerprint. */
  lemma {:induction false} OnePerPort(ex: Exchange, host: string, openPorts: seq<int>)
    requires NoDup(openPorts)
    ensures forall i, j | 0 <= i < j < |Fingerprints(ex, host, openPorts)| ::
              Fingerprints(ex, host, openPorts)[i].port != Fingerprints(ex, host, openPorts)[j].port
  {
    if openPorts != [] {
      var init := openPorts[..|openPorts| - 1];
      var last := openPorts[|openPorts| - 1];
      var fs := Fingerprints(ex, host, init);
      var extra := OptionToSeq(PortFingerprint(ex, host, last));
      var ws := Fingerprints(ex, host, openPorts);
      assert ws == fs + extra;
      NoDupSplitLast(openPorts);
      OnePerPort(ex, host, init);
      FreshPortNotFingerprinted(ex, host, init, last);
      if extra != [] {
        PortFingerprintMeaning(ex, host, last);
        assert extra[0].port == last;
      }
      forall i, j | 0 <= i < j < |ws|
        ensures ws[i].port != ws[j].port
      {
        assert ws[i] == fs[i];
        if j < |fs| {
          assert ws[j] == fs[j];
        } else {
          assert ws[j] == extra[0];
        }
      }
    }
  }

  lemma FingerprintsStep(ex: Exchange, host: string, openPorts: seq<int>, k: nat)
    requires k < |openPorts|
    ensures Fingerprints(ex, host, openPorts[..k + 1])
         == Fingerprints(ex, host, openPorts[..k]) + OptionToSeq(PortFingerprint(ex, host, openPorts[k]))
  {
    assert openPorts[..k + 1][..k] == openPorts[..k];
  }

  lemma DispatchHttp(ex: Exchange, host: string, p: int)
    requires p == 80 || p == 8080 || p == 8000
    ensures PortFingerprint(ex, host, p)
         == match HttpProbe(ex, host, p) case None => None case Some(res) => Some(Fingerprint("http", p, res.0, HeaderMeta(res.1)))
  {
  }

  lemma DispatchBanner(ex: Exchange, host: string, p: int, service: string)
    requires (p == 22 && service == "ssh") || (p == 21 && service == "ftp") || (p == 25 && service == "smtp")
    ensures PortFingerprint(ex, host, p)
         == match ReadBanner(ex, host, p) case None => None case Some(b) => Some(Fingerprint(service, p, b, NoMeta))
  {
    var s := StrategyFor(p);
    assert s.Some? && s.value != Http && ServiceName(s.value) == service;
  }

  lemma DispatchNone(ex: Exchange, host: string, p: int)
    requires !(p == 80 || p == 8080 || p == 8000 || p == 22 || p == 21 || p == 25)
    ensures PortFingerprint(ex, host, p) == None
  {
  }

  /** `fp_ssh`, `fp_ftp` and `fp_smtp`: a banner, when there is one, becomes a fingerprint with empty `meta`. */
  method BannerFingerprint(ex: Exchange, host: string, port: int, service: string) returns (fp: Option<Fingerprint>)
    ensures fp == match ReadBanner(ex, host, port) case None => None case Some(b) => Some(Fingerprint(service, port, b, NoMeta))
  {
    var banner := ReadBanner(ex, host, port);
    if banner.Some? {
      return Some(Fingerprint(service, port, banner.value, NoMeta));
    }
    return None;
  }

  /** `fp_http`: a selected `server` header becomes a fingerprint carrying all headers. */
  method HttpFingerprint(ex: Exchange, host: string, port: int) returns (fp: Option<Fingerprint>)
    ensures fp == match HttpProbe(ex, host, port) case None => None case Some(res) => Some(Fingerprint("http", port, res.0, HeaderMeta(res.1)))
  {
    var res := HttpServerHeader(ex, host, port);
    if res.Some? {
      var (server, headers) := res.value;
      return Some(Fingerprint("http", port, server, HeaderMeta(headers)));
    }
    return None;
  }

  /** `fingerprint_services`: start the probe the dispatch names for each open port, collect what they find. */
  method FingerprintServices(ex: Exchange, host: string, openPorts: seq<int>) returns (results: seq<Fingerprint>)
    ensures results == Fingerprints(ex, host, openPorts)
  {
    results := [];
    for k := 0 to |openPorts|
      invariant results == Fingerprints(ex, host, openPorts[..k])
    {
      FingerprintsStep(ex, host, openPorts, k);
      var p := openPorts[k];
      var fp: Option<Fingerprint> := None;
      if p == 80 || p == 8080 || p == 8000 {
        fp := HttpFingerprint(ex, host, p);
        DispatchHttp(ex, host, p);
      } else if p == 22 {
        fp := BannerFingerprint(ex, host, p, "ssh");
        DispatchBanner(ex, host, p, "ssh");
      } else if p == 21 {
        fp := BannerFingerprint(ex, host, p, "ftp");
        DispatchBanner(ex, host, p, "ftp");
      } else if p == 25 {
        fp := BannerFingerprint(ex, host, p, "smtp");
        DispatchBanner(ex, host, p, "smtp");
      }
      if !(p == 80 || p == 8080 || p == 8000 || p == 22 || p == 21 || p == 25) {
        DispatchNone(ex, host, p);
      }
      results := results + OptionToSeq(fp);
    }
    assert openPorts[..|openPorts|] == openPorts;
  }

  // ------------------------------------------------------------------
  // match_vulnerabilities
  // ------------------------------------------------------------------

  /** A rule's `match` object; a key it omits is `None`. */
  datatype MatchSpec = MatchSpec(kind: Option<string>, pattern: Option<string>, header: Option<string>)

  /** One entry of the vulnerability database; a key it omits is `None`. */
  datatype Rule = Rule(
    id: Option<string>,
    service: Option<string>,
    severity: Option<string>,
    description: Option<string>,
    references: Option<seq<string>>,
    matcher: Option<MatchSpec>)

  /** The finding dict `match_vulnerabilities` appends. */
  datatype Finding = Finding(
    id: Option<string>,
    severity: string,
    description: string,
    references: seq<string>,
    service: string,
    port: int,
    evidence: string)

  /**
   * Python's `re`, as far as the matcher uses it: `compiles(p)` holds when
   * `re.compile(p, re.IGNORECASE)` does not raise `re.error`, and
   * `searchCI(p, s)` when the compiled pattern's `search(s)` finds a match.
   */
  datatype RegexEngine = RegexEngine(compiles: string -> bool, searchCI: (string, string) -> bool)

  const BannerRegex: string := "banner_regex"
  const HeaderRegex: string := "header_regex"

  /** `rule.get("match", {})`. */
  function MatcherOf(rule: Rule): MatchSpec
  {
    rule.matcher.GetOr(MatchSpec(None, None, None))
  }

  /** The headers a fingerprint carries: `fp.meta.get("headers", {}) if fp.meta else {}`. */
  function HeadersOf(fp: Fingerprint): map<string, string>
  {
    match fp.meta
    case NoMeta => map[]
    case HeaderMeta(h) => h
  }

  /** The header a `header_regex` rule looks at: `match.get("header", "server").lower()`. */
  function HeaderNameOf(m: MatchSpec): string
  {
    Lower(m.header.GetOr("server"))
  }

  /** `evidence_value` for a match type; `None` for an unknown type or an absent header. */
  function Candidate(fp: Fingerprint, m: MatchSpec, kind: string): Option<string>
  {
    if kind == BannerRegex then Some(fp.evidence)
    else if kind == HeaderRegex then
      (if HeaderNameOf(m) in HeadersOf(fp) then Some(HeadersOf(fp)[HeaderNameOf(m)]) else None)
    else None
  }

  /** The finding a rule yields for a fingerprint, with `rule.get(key, default)` for its own fields. */
  function MakeFinding(rule: Rule, fp: Fingerprint, evidence: string): Finding
  {
    Finding(rule.id, rule.severity.GetOr("info"), rule.description.GetOr(""), rule.references.GetOr([]),
            fp.service, fp.port, evidence)
  }

  /** The inner loop body of `match_vulnerabilities` for one fingerprint and one rule. */
  function RuleFinding(engine: RegexEngine, fp: Fingerprint, rule: Rule): Option<Finding>
  {
    if rule.service != Some(fp.service) then None
    else
      var m := MatcherOf(rule);
      if m.kind.None? || m.kind.value == [] || m.pattern.None? || m.pattern.value == [] then None
      else if !engine.compiles(m.pattern.value) then None
      else
        match Candidate(fp, m, m.kind.value)
        case None => None
        case Some(e) =>
          if e != [] && engine.searchCI(m.pattern.value, e) then Some(MakeFinding(rule, fp, e)) else None
  }

  /** The findings one fingerprint collects, in rule order. */
  function RuleFindings(engine: RegexEngine, fp: Fingerprint, db: seq<Rule>): seq<Finding>
  {
    Concat(seq(|db|, j requires 0 <= j < |db| => OptionToSeq(RuleFinding(engine, fp, db[j]))))
  }

  /** What `match_vulnerabilities` returns: fingerprint-major, rule-minor, no de-duplication. */
  function Findings(engine: RegexEngine, fps: seq<Fingerprint>, db: seq<Rule>): seq<Finding>
  {
    Concat(seq(|fps|, i requires 0 <= i < |fps| => RuleFindings(engine, fps[i], db)))
  }

  /** The rules that are passed over without an error, and why. */
  lemma RuleSkipped(engine: RegexEngine, fp: Fingerprint, rule: Rule)
    ensures rule.service != Some(fp.service) ==> RuleFinding(engine, fp, rule).None?
    ensures MatcherOf(rule).kind.None? || MatcherOf(rule).kind == Some([]) ==> RuleFinding(engine, fp, rule).None?
    ensures MatcherOf(rule).pattern.None? || MatcherOf(rule).pattern == Some([]) ==> RuleFinding(engine, fp, rule).None?
    ensures MatcherOf(rule).pattern.Some? && !engine.compiles(MatcherOf(rule).pattern.value) ==> RuleFinding(engine, fp, rule).None?
    ensures MatcherOf(rule).kind.Some? && MatcherOf(rule).kind.value != BannerRegex && MatcherOf(rule).kind.value != HeaderRegex
            ==> RuleFinding(engine, fp, rule).None?
    ensures MatcherOf(rule).kind == Some(HeaderRegex) && HeaderNameOf(MatcherOf(rule)) !in HeadersOf(fp)
            ==> RuleFinding(engine, fp, rule).None?
    ensures MatcherOf(rule).kind == Some(HeaderRegex) && fp.meta == NoMeta ==> RuleFinding(engine, fp, rule).None?
  {
  }

  /**
   * A finding fires exactly when the rule is for the fingerprint's service, has
   * a type and a pattern that compiles, and its pattern is found in a non-empty
   * candidate; it then carries the rule's fields (with their defaults), the
   * fingerprint's service and port, and the candidate as evidence.
   */
  lemma RuleFindingMeaning(engine: RegexEngine, fp: Fingerprint, rule: Rule)
    ensures RuleFinding(engine, fp, rule).Some? <==>
      && rule.service == Some(fp.service)
      && MatcherOf(rule).kind.Some? && MatcherOf(rule).kind.value != []
      && MatcherOf(rule).pattern.Some? && MatcherOf(rule).pattern.value != []
      && engine.compiles(MatcherOf(rule).pattern.value)
      && Candidate(fp, MatcherOf(rule), MatcherOf(rule).kind.value).Some?
      && Candidate(fp, MatcherOf(rule), MatcherOf(rule).kind.value).value != []
      && engine.searchCI(MatcherOf(rule).pattern.value, Candidate(fp, MatcherOf(rule), MatcherOf(rule).kind.value).value)
    ensures RuleFinding(engine, fp, rule).Some? ==>
      && RuleFinding(engine, fp, rule).value
         == Finding(rule.id, rule.severity.GetOr("info"), rule.description.GetOr(""), rule.references.GetOr([]),
                    fp.service, fp.port, Candidate(fp, MatcherOf(rule), MatcherOf(rule).kind.value).value)
      && (MatcherOf(rule).kind == Some(BannerRegex) ==> RuleFinding(engine, fp, rule).value.evidence == fp.evidence)
      && (MatcherOf(rule).kind == Some(HeaderRegex) ==>
            && HeaderNameOf(MatcherOf(rule)) in HeadersOf(fp)
            && RuleFinding(engine, fp, rule).value.evidence == HeadersOf(fp)[HeaderNameOf(MatcherOf(rule))])
  {
  }

  /** No more findings than fingerprint-rule pairs. */
  lemma FindingsBound(engine: RegexEngine, fps: seq<Fingerprint>, db: seq<Rule>)
    ensures |Findings(engine, fps, db)| <= |fps| * |db|
  {
    var inner := seq(|fps|, i requires 0 <= i < |fps| => RuleFindings(engine, fps[i], db));
    forall i | 0 <= i < |fps|
      ensures |inner[i]| <= |db|
    {
      var xs := seq(|db|, j requires 0 <= j < |db| => OptionToSeq(RuleFinding(engine, fps[i], db[j])));
      ConcatLengthBound(xs, 1);
    }
    ConcatLengthBound(inner, |db|);
  }

  /** Every finding is what one rule yields for one fingerprint. */
  lemma FindingOrigin(engine: RegexEngine, fps: seq<Fingerprint>, db: seq<Rule>, f: Finding) returns (i: nat, j: nat)
    requires f in Findings(engine, fps, db)
    ensures i < |fps| && j < |db| && RuleFinding(engine, fps[i], db[j]) == Some(f)
  {
    var inner := seq(|fps|, i requires 0 <= i < |fps| => RuleFindings(engine, fps[i], db));
    ConcatMembers(inner, f);
    i :| 0 <= i < |inner| && f in inner[i];
    var xs := seq(|db|, j requires 0 <= j < |db| => OptionToSeq(RuleFinding(engine, fps[i], db[j])));
    ConcatMembers(xs, f);
    j :| 0 <= j < |xs| && f in xs[j];
  }

  /** Every rule that fires on a fingerprint contributes its finding (the converse of `FindingOrigin`). */
  lemma FindingComplete(engine: RegexEngine, fps: seq<Fingerprint>, db: seq<Rule>, i: nat, j: nat)
    requires i < |fps| && j < |db| && RuleFinding(engine, fps[i], db[j]).Some?
    ensures RuleFinding(engine, fps[i], db[j]).value in Findings(engine, fps, db)
  {
    var f := RuleFinding(engine, fps[i], db[j]).value;
    var xs := seq(|db|, j requires 0 <= j < |db| => OptionToSeq(RuleFinding(engine, fps[i], db[j])));
    assert f in xs[j];
    ConcatMembers(xs, f);
    var inner := seq(|fps|, i requires 0 <= i < |fps| => RuleFindings(engine, fps[i], db));
    assert f in inner[i];
    ConcatMembers(inner, f);
  }

  /** Every finding names the service and port of a fingerprint it was matched against. */
  lemma FindingProvenance(engine: RegexEngine, fps: seq<Fingerprint>, db: seq<Rule>, f: Finding)
    requires f in Findings(engine, fps, db)
    ensures exists i | 0 <= i < |fps| :: f.service == fps[i].service && f.port == fps[i].port
    ensures exists j | 0 <= j < |db| :: db[j].service == Some(f.service) && f.id == db[j].id
              && f.severity == db[j].severity.GetOr("info")
    ensures f.evidence != []
  {
    var i, j := FindingOrigin(engine, fps, db, f);
    RuleFindingMeaning(engine, fps[i], db[j]);
  }

  /** Matching a longer fingerprint list appends the new fingerprints' findings after the old ones. */
  lemma FindingsAppend(engine: RegexEngine, a: seq<Fingerprint>, b: seq<Fingerprint>, db: seq<Rule>)
    ensures Findings(engine, a + b, db) == Findings(engine, a, db) + Findings(engine, b, db)
  {
    var ab := seq(|a + b|, i requires 0 <= i < |a + b| => RuleFindings(engine, (a + b)[i], db));
    var sa := seq(|a|, i requires 0 <= i < |a| => RuleFindings(engine, a[i], db));
    var sb := seq(|b|, i requires 0 <= i < |b| => RuleFindings(engine, b[i], db));
    assert ab == sa + sb;
    ConcatAppend(sa, sb);
  }

  lemma FindingsStep(engine: RegexEngine, fps: seq<Fingerprint>, db: seq<Rule>, i: nat)
    requires i < |fps|
    ensures Findings(engine, fps[..i + 1], db) == Findings(engine, fps[..i], db) + RuleFindings(engine, fps[i], db)
  {
    var s := seq(|fps[..i + 1]|, k requires 0 <= k < |fps[..i + 1]| => RuleFindings(engine, fps[..i + 1][k], db));
    assert s[..i] == seq(|fps[..i]|, k requires 0 <= k < |fps[..i]| => RuleFindings(engine, fps[..i][k], db));
    ConcatStep(s, i);
    assert s[..i + 1] == s;
  }

  lemma RuleFindingsStep(engine: RegexEngine, fp: Fingerprint, db: seq<Rule>, j: nat)
    requires j < |db|
    ensures RuleFindings(engine, fp, db[..j + 1]) == RuleFindings(engine, fp, db[..j]) + OptionToSeq(RuleFinding(engine, fp, db[j]))
  {
    var s := seq(|db[..j + 1]|, k requires 0 <= k < |db[..j + 1]| => OptionToSeq(RuleFinding(engine, fp, db[..j + 1][k])));
    assert s[..j] == seq(|db[..j]|, k requires 0 <= k < |db[..j]| => OptionToSeq(RuleFinding(engine, fp, db[..j][k])));
    ConcatStep(s, j);
    assert s[..j + 1] == s;
  }

  /** The inner loop of `match_vulnerabilities`: the findings of every rule on one fingerprint, in rule order. */
  method MatchRules(engine: RegexEngine, fp: Fingerprint, db: seq<Rule>) returns (found: seq<Finding>)
    ensures found == RuleFindings(engine, fp, db)
  {
    found := [];
    for j := 0 to |db|
      invariant found == RuleFindings(engine, fp, db[..j])
    {
      RuleFindingsStep(engine, fp, db, j);
      var rule := db[j];
      if rule.service != Some(fp.service) {
        continue;
      }
      var m := rule.matcher.GetOr(MatchSpec(None, None, None));
      var mtype, pattern := m.kind, m.pattern;
      if mtype.None? || mtype.value == [] || pattern.None? || pattern.value == [] {
        continue;
      }
      if !engine.compiles(pattern.value) {
        continue;
      }
      var evidence: Option<string>;
      if mtype.value == BannerRegex {
        evidence := Some(fp.evidence);
      } else if mtype.value == HeaderRegex {
        var headerName := Lower(m.header.GetOr("server"));
        var headers := if fp.meta.HeaderMeta? then fp.meta.headers else map[];
        evidence := if headerName in headers then Some(headers[headerName]) else None;
      } else {
        continue;
      }
      if evidence.Some? && evidence.value != [] && engine.searchCI(pattern.value, evidence.value) {
        found := found + [MakeFinding(rule, fp, evidence.value)];
      }
    }
    assert db[..|db|] == db;
  }

  /** `match_vulnerabilities`: try every rule on every fingerprint, skipping what does not apply. */
  method MatchVulnerabilities(engine: RegexEngine, fps: seq<Fingerprint>, db: seq<Rule>) returns (findings: seq<Finding>)
    ensures findings == Findings(engine, fps, db)
  {
    findings := [];
    for i := 0 to |fps|
      invariant findings == Findings(engine, fps[..i], db)
    {
      FindingsStep(engine, fps, db, i);
      var found := MatchRules(engine, fps[i], db);
      findings := findings + found;
    }
    assert fps[..|fps|] == fps;
  }

  // ------------------------------------------------------------------
  // run_vuln_scan
  // ------------------------------------------------------------------

  /** The `{host, open_ports, findings}` record of one host. */
  datatype HostReport = HostReport(host: string, openPorts: seq<int>, findings: seq<Finding>)

  /** One turn of the assembly loop: fingerprint the open ports, match them, and shape the record. */
  function HostVulns(ex: Exchange, engine: RegexEngine, db: seq<Rule>, r: HostScan): HostReport
  {
    HostReport(r.host, r.openPorts, Findings(engine, Fingerprints(ex, r.host, r.openPorts), db))
  }

  /** The records of the assembly loop, one per network result. */
  function VulnReports(ex: Exchange, engine: RegexEngine, db: seq<Rule>, net: seq<HostScan>): (out: seq<HostReport>)
    ensures |out| == |net|
  {
    seq(|net|, i requires 0 <= i < |net| => HostVulns(ex, engine, db, net[i]))
  }

  /** What `run_vuln_scan(targets, ports)` returns. */
  function VulnReport(o: AddressOracle, isOpen: Probe, ex: Exchange, engine: RegexEngine, db: seq<Rule>,
                      targets: seq<string>, ports: seq<int>): seq<HostReport>
  {
    VulnReports(ex, engine, db, ScanReport(o, targets, Some(ports), isOpen))
  }

  /**
   * Each record keeps the host and the open ports of its network result
   * unchanged, and a host without open ports has no findings.
   */
  lemma VulnReportsMeaning(ex: Exchange, engine: RegexEngine, db: seq<Rule>, net: seq<HostScan>, i: nat)
    requires i < |net|
    ensures VulnReports(ex, engine, db, net)[i].host == net[i].host
    ensures VulnReports(ex, engine, db, net)[i].openPorts == net[i].openPorts
    ensures net[i].openPorts == [] ==> VulnReports(ex, engine, db, net)[i].findings == []
  {
  }

  /** Every finding of a host is about one of its open ports, and one that has a probe. */
  lemma FindingOnOpenPort(ex: Exchange, engine: RegexEngine, db: seq<Rule>, net: seq<HostScan>, i: nat, f: Finding)
    requires i < |net| && f in VulnReports(ex, engine, db, net)[i].findings
    ensures f.port in net[i].openPorts
    ensures StrategyFor(f.port).Some? && f.service == ServiceName(StrategyFor(f.port).value)
  {
    var fps := Fingerprints(ex, net[i].host, net[i].openPorts);
    var a, b := FindingOrigin(engine, fps, db, f);
    RuleFindingMeaning(engine, fps[a], db[b]);
    FingerprintsMeaning(ex, net[i].host, net[i].openPorts, a);
  }

  /** `run_vuln_scan` reports the expanded hosts in expansion order, each with its sorted open ports. */
  lemma VulnReportMeaning(o: AddressOracle, isOpen: Probe, ex: Exchange, engine: RegexEngine, db: seq<Rule>,
                          targets: seq<string>, ports: seq<int>, i: nat, p: int)
    requires i < |VulnReport(o, isOpen, ex, engine, db, targets, ports)|
    ensures |VulnReport(o, isOpen, ex, engine, db, targets, ports)| == |Expanded(o, targets)|
    ensures VulnReport(o, isOpen, ex, engine, db, targets, ports)[i].host == Expanded(o, targets)[i]
    ensures Sorted(VulnReport(o, isOpen, ex, engine, db, targets, ports)[i].openPorts)
    ensures p in VulnReport(o, isOpen, ex, engine, db, targets, ports)[i].openPorts <==> p in ports && isOpen(Expanded(o, targets)[i], p)
  {
    var net := ScanReport(o, targets, Some(ports), isOpen);
    ScanReportMeaning(o, targets, Some(ports), isOpen, i, p);
    VulnReportsMeaning(ex, engine, db, net, i);
  }

  /** The loop of `run_vuln_scan` over the network results. */
  method AssembleReports(ex: Exchange, engine: RegexEngine, db: seq<Rule>, net: seq<HostScan>) returns (out: seq<HostReport>)
    ensures out == VulnReports(ex, engine, db, net)
  {
    out := [];
    for k := 0 to |net|
      invariant |out| == k
      invariant forall i | 0 <= i < k :: out[i] == HostVulns(ex, engine, db, net[i])
    {
      var openPorts := net[k].openPorts;
      var fps := FingerprintServices(ex, net[k].host, openPorts);
      var findings := MatchVulnerabilities(engine, fps, db);
      out := out + [HostReport(net[k].host, openPorts, findings)];
    }
  }

  /** `run_vuln_scan`: scan the targets, then fingerprint and match every host found. */
  method RunVulnScan(o: AddressOracle, isOpen: Probe, ex: Exchange, engine: RegexEngine, db: seq<Rule>,
                     targets: seq<string>, ports: seq<int>) returns (out: seq<HostReport>)
    ensures out == VulnReport(o, isOpen, ex, engine, db, targets, ports)
  {
    var net := ScanTargets(o, targets, Some(ports), isOpen);
    out := AssembleReports(ex, engine, db, net);
  }
}
