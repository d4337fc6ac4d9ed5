/**
 * Model of svscan/scanners/network_scanner.py: the port-specification parser,
 * target expansion with order-preserving de-duplication, and the shaping of the
 * per-host TCP connect results. CIDR host enumeration, IP-literal recognition,
 * DNS resolution and the TCP connect itself are supplied as oracles.
 */
module NetworkScanner {
  import opened Wrappers
  import opened Text
  import opened Sequences

  /** The ports `scan_targets` probes when its caller passes none. */
  const DefaultCommonPorts: seq<int> := [22, 80, 443]

  // ------------------------------------------------------------------
  // parse_ports
  // ------------------------------------------------------------------

  /** What one comma-separated segment of a port specification stands for. */
  datatype Segment =
    | Blank                    // empty or whitespace only: skipped
    | Single(port: int)        // one integer
    | Span(lo: int, hi: int)   // `lo-hi`, both ends included
    | Malformed(text: string)  // the text that `int()` rejected

  /**
   * The body of `parse_ports`' loop for one segment: strip it, skip it when
   * blank, split a range at its first `-`, and parse the integers.
   */
  function ClassifySegment(part: string): (g: Segment)
    ensures g == Blank <==> AllSpace(part)
    ensures g.Malformed? ==> ParseInt(g.text) == None
  {
    var p := Strip(part);
    if p == [] then Blank
    else if Find(p, "-").Some? then
      var i := Find(p, "-").value;
      var startText, endText := p[..i], p[i + 1..];
      var lo, hi := ParseInt(startText), ParseInt(endText);
      if lo.None? then Malformed(startText)
      else if hi.None? then Malformed(endText)
      else Span(lo.value, hi.value)
    else
      var n := ParseInt(p);
      if n.None? then Malformed(p) else Single(n.value)
  }

  /** The port `n` is one that segment `g` names. */
  predicate Names(g: Segment, n: int)
  {
    match g
    case Single(m) => n == m
    case Span(lo, hi) => lo <= n <= hi
    case _ => false
  }

  /** Python's `list(range(lo, stop))`. */
  function Range(lo: int, stop: int): (r: seq<int>)
    ensures |r| == if stop <= lo then 0 else stop - lo
    ensures forall i | 0 <= i < |r| :: r[i] == lo + i
  {
    if stop <= lo then [] else seq(stop - lo, i requires 0 <= i < stop - lo => lo + i)
  }

  lemma InRange(lo: int, stop: int, n: int)
    ensures n in Range(lo, stop) <==> lo <= n < stop
  {
    if lo <= n < stop {
      assert Range(lo, stop)[n - lo] == n;
    }
  }

  /** What the loop appends to `ports` for one classified segment. */
  function SegmentPorts(g: Segment): seq<int>
  {
    match g
    case Single(n) => [n]
    case Span(lo, hi) => Range(lo, hi + 1)
    case _ => []
  }

  /** Every segment of `parts`, classified. */
  function Classify(parts: seq<string>): (gs: seq<Segment>)
    ensures |gs| == |parts|
  {
    seq(|parts|, i requires 0 <= i < |parts| => ClassifySegment(parts[i]))
  }

  lemma ClassifyAt(parts: seq<string>, i: nat)
    requires i < |parts|
    ensures Classify(parts)[i] == ClassifySegment(parts[i])
  {
  }

  /** The segments of a port specification as `parse_ports` sees them. */
  function Segments(spec: string): seq<Segment>
  {
    Classify(Split(spec, ","))
  }

  /** The `ports` list the loop has built after the given segments, before `sorted(set(...))`. */
  function PortsOf(gs: seq<Segment>): seq<int>
  {
    if gs == [] then []
    else PortsOf(gs[..|gs| - 1]) + SegmentPorts(gs[|gs| - 1])
  }

  predicate AnyMalformed(gs: seq<Segment>)
  {
    exists i | 0 <= i < |gs| :: gs[i].Malformed?
  }

  lemma SegmentPortsNames(g: Segment, n: int)
    ensures n in SegmentPorts(g) <==> Names(g, n)
  {
    if g.Span? {
      InRange(g.lo, g.hi + 1, n);
    }
  }

  /** A port is in the built list exactly when one of the segments names it. */
  lemma {:induction false} PortsOfMeaning(gs: seq<Segment>, n: int)
    ensures n in PortsOf(gs) <==> exists i | 0 <= i < |gs| :: Names(gs[i], n)
  {
    if gs != [] {
      var init := gs[..|gs| - 1];
      var g := gs[|gs| - 1];
      PortsOfMeaning(init, n);
      SegmentPortsNames(g, n);
      if exists i | 0 <= i < |init| :: Names(init[i], n) {
        var i :| 0 <= i < |init| && Names(init[i], n);
        assert gs[i] == init[i];
      }
      if exists i | 0 <= i < |gs| :: Names(gs[i], n) {
        var i :| 0 <= i < |gs| && Names(gs[i], n);
        if i < |init| {
          assert init[i] == gs[i];
        }
      }
    }
  }

  /**
   * The loop of `parse_ports` over the classified segments: stops at the first
   * malformed one (no partial list); otherwise returns `sorted(set(ports))`, a
   * strictly increasing list holding exactly the ports the segments name.
   */
  method CollectPorts(gs: seq<Segment>) returns (r: Result<seq<int>, string>)
    ensures r.Failure? <==> AnyMalformed(gs)
    ensures r.Failure? ==>
      exists i | 0 <= i < |gs| :: gs[i] == Malformed(r.error) && forall j | 0 <= j < i :: !gs[j].Malformed?
    ensures r.Success? ==> r.value == SortInts(Dedup(PortsOf(gs)))
    ensures r.Success? ==> StrictlyIncreasing(r.value)
    ensures r.Success? ==> forall n :: n in r.value <==> exists i | 0 <= i < |gs| :: Names(gs[i], n)
  {
    var ports: seq<int> := [];
    for k := 0 to |gs|
      invariant forall i | 0 <= i < k :: !gs[i].Malformed?
      invariant ports == PortsOf(gs[..k])
    {
      assert gs[..k + 1][..k] == gs[..k];
      match gs[k]
      case Blank =>
      case Single(n) =>
        ports := ports + [n];
      case Span(lo, hi) =>
        ports := ports + Range(lo, hi + 1);
      case Malformed(text) =>
        return Failure(text);
    }
    assert gs[..|gs|] == gs;
    var unique := Dedup(ports);
    SortDistinct(unique);
    r := Success(SortInts(unique));
    forall n ensures n in r.value <==> exists i | 0 <= i < |gs| :: Names(gs[i], n) {
      SortMembers(unique, n);
      PortsOfMeaning(gs, n);
    }
  }

  /** `parse_ports`: split at commas, classify every segment, and collect. */
  method ParsePorts(spec: string) returns (r: Result<seq<int>, string>)
    ensures r.Failure? <==> AnyMalformed(Segments(spec))
    ensures r.Failure? ==>
      exists i | 0 <= i < |Segments(spec)| ::
        Segments(spec)[i] == Malformed(r.error)
        && forall j | 0 <= j < i :: !Segments(spec)[j].Malformed?
    ensures r.Success? ==> r.value == SortInts(Dedup(PortsOf(Segments(spec))))
    ensures r.Success? ==> StrictlyIncreasing(r.value)
    ensures r.Success? ==>
      forall n :: n in r.value <==> exists i | 0 <= i < |Segments(spec)| :: Names(Segments(spec)[i], n)
  {
    r := CollectPorts(Segments(spec));
  }

  lemma {:induction false} BlanksNameNothing(gs: seq<Segment>)
    requires forall k | 0 <= k < |gs| :: gs[k] == Blank
    ensures PortsOf(gs) == []
  {
    if gs != [] {
      BlanksNameNothing(gs[..|gs| - 1]);
    }
  }

  /**
   * A segment without `-` is malformed exactly when `int()` rejects its stripped
   * text, and otherwise is the single port `int()` reads.
   */
  lemma ClassifyUnranged(part: string)
    requires Strip(part) != [] && '-' !in Strip(part)
    ensures ClassifySegment(part).Malformed? <==> ParseInt(Strip(part)).None?
    ensures ParseInt(Strip(part)).None? ==> ClassifySegment(part) == Malformed(Strip(part))
    ensures ParseInt(Strip(part)).Some? ==> ClassifySegment(part) == Single(ParseInt(Strip(part)).value)
  {
    FindNoChar(Strip(part), '-');
  }

  /**
   * A segment with its first `-` at `i` is malformed exactly when `int()` rejects
   * the text before it or the text after it (the start is tried first), and
   * otherwise is the range between the two values `int()` reads.
   */
  lemma ClassifyRanged(part: string, i: nat)
    requires i < |Strip(part)| && Strip(part)[i] == '-' && '-' !in Strip(part)[..i]
    ensures ClassifySegment(part).Malformed?
        <==> ParseInt(Strip(part)[..i]).None? || ParseInt(Strip(part)[i + 1..]).None?
    ensures ParseInt(Strip(part)[..i]).None? ==> ClassifySegment(part) == Malformed(Strip(part)[..i])
    ensures ParseInt(Strip(part)[..i]).Some? && ParseInt(Strip(part)[i + 1..]).None?
        ==> ClassifySegment(part) == Malformed(Strip(part)[i + 1..])
    ensures ParseInt(Strip(part)[..i]).Some? && ParseInt(Strip(part)[i + 1..]).Some?
        ==> ClassifySegment(part) == Span(ParseInt(Strip(part)[..i]).value, ParseInt(Strip(part)[i + 1..]).value)
  {
    FindCharAt(Strip(part), '-', i);
  }

  /** A numeral framed by whitespace, as in the segment `" 22"` of `"80, 22"`, is the port it denotes. */
  lemma ClassifyFramedNumber(w1: string, d: string, w2: string)
    requires AllSpace(w1) && AllSpace(w2) && Decimal(d)
    ensures ClassifySegment(w1 + d + w2) == Single(DigitsValue(d))
  {
    assert Trimmed(d) by {
      assert IsDigit(d[0]) && IsDigit(d[|d| - 1]);
    }
    StripFrame(w1, d, w2);
    assert '-' !in d by {
      forall k | 0 <= k < |d|
        ensures d[k] != '-'
      {
        assert IsDigit(d[k]);
      }
    }
    ParseIntOfDigits(d);
    ClassifyUnranged(w1 + d + w2);
  }

  /** A segment written as a decimal numeral names the port it denotes. */
  lemma ClassifyNumber(d: string)
    requires Decimal(d)
    ensures ClassifySegment(d) == Single(DigitsValue(d))
  {
    assert Trimmed(d) by {
      assert IsDigit(d[0]) && IsDigit(d[|d| - 1]);
    }
    StripTrimmed(d);
    FindNoChar(d, '-');
    ParseIntOfDigits(d);
    ClassifySingle(d, DigitsValue(d));
  }

  lemma ClassifySingle(p: string, n: int)
    requires p != [] && Strip(p) == p && Find(p, "-") == None && ParseInt(p) == Some(n)
    ensures ClassifySegment(p) == Single(n)
  {
  }

  lemma RangeText(da: string, db: string)
    requires Decimal(da) && Decimal(db)
    ensures Strip(da + "-" + db) == da + "-" + db
    ensures Find(da + "-" + db, "-") == Some(|da|)
    ensures (da + "-" + db)[..|da|] == da && (da + "-" + db)[|da| + 1..] == db
  {
    var p := da + "-" + db;
    assert Trimmed(p) by {
      assert p[0] == da[0] && p[|p| - 1] == db[|db| - 1];
    }
    StripTrimmed(p);
    assert p[..|da|] == da;
    FindCharAt(p, '-', |da|);
    assert p[|da| + 1..] == db;
  }

  lemma ClassifySpan(p: string, i: nat, a: int, b: int)
    requires p != [] && Strip(p) == p && Find(p, "-") == Some(i)
    requires ParseInt(p[..i]) == Some(a) && ParseInt(p[i + 1..]) == Some(b)
    ensures ClassifySegment(p) == Span(a, b)
  {
  }

  /** A segment written as `a-b` with decimal numerals at both ends is the range between them. */
  lemma ClassifyRange(da: string, db: string)
    requires Decimal(da) && Decimal(db)
    ensures ClassifySegment(da + "-" + db) == Span(DigitsValue(da), DigitsValue(db))
  {
    RangeText(da, db);
    ParseIntOfDigits(da);
    ParseIntOfDigits(db);
    ClassifySpan(da + "-" + db, |da|, DigitsValue(da), DigitsValue(db));
  }

  /**
   * An information separator before the `-` of a range survives the segment's `strip()`,
   * so `int()` rejects the start text: `"1\x1c-5"` is malformed, not the range 1 to 5.
   */
  lemma SeparatorInRangeMalformed(da: string, c: char, db: string)
    requires Decimal(da) && Decimal(db) && IsInfoSeparator(c)
    ensures ClassifySegment(da + [c] + "-" + db) == Malformed(da + [c])
  {
    var start := da + [c];
    var p := start + "-" + db;
    assert Trimmed(p) by {
      assert p[0] == da[0] && p[|p| - 1] == db[|db| - 1];
    }
    StripTrimmed(p);
    assert p[..|start|] == start;
    assert '-' !in start by {
      forall k | 0 <= k < |start|
        ensures start[k] != '-'
      {
        if k < |da| {
          assert IsDigit(da[k]);
        }
      }
    }
    FindCharAt(p, '-', |start|);
    ParseIntRejectsTrailingSeparator(da, c);
  }

  /** The instance `"1\x1c-5"`. */
  lemma SeparatorRangeExample(seg: string, one: string, five: string)
    requires one == "1" && five == "5" && seg == one + ['\U{1C}'] + "-" + five
    ensures ClassifySegment(seg) == Malformed(one + ['\U{1C}'])
  {
    assert Decimal(one) by {
      assert IsDigit(one[0]);
    }
    assert Decimal(five) by {
      assert IsDigit(five[0]);
    }
    SeparatorInRangeMalformed(one, '\U{1C}', five);
  }

  /** Splitting text made of commas and whitespace at commas leaves only whitespace pieces. */
  lemma CommaSpacePieces(spec: string)
    requires forall i | 0 <= i < |spec| :: spec[i] == ',' || IsSpace(spec[i])
    ensures forall k | 0 <= k < |Split(spec, ",")| :: AllSpace(Split(spec, ",")[k])
  {
    var parts := Split(spec, ",");
    forall k, j | 0 <= k < |parts| && 0 <= j < |parts[k]|
      ensures IsSpace(parts[k][j])
    {
      SplitChars(spec, ",", k, parts[k][j]);
      ContainsChar(parts[k], ',');
    }
  }

  lemma {:induction false} ClassifyBlank(parts: seq<string>)
    requires forall k | 0 <= k < |parts| :: AllSpace(parts[k])
    ensures forall k | 0 <= k < |Classify(parts)| :: Classify(parts)[k] == Blank
  {
    if parts != [] {
      ClassifyBlank(parts[..|parts| - 1]);
    }
  }

  /** Blank segments are skipped: a specification of only commas and whitespace names no port. */
  lemma BlankSpecNamesNothing(spec: string)
    requires forall i | 0 <= i < |spec| :: spec[i] == ',' || IsSpace(spec[i])
    ensures !AnyMalformed(Segments(spec))
    ensures PortsOf(Segments(spec)) == []
  {
    SegmentsBlank(spec);
    BlanksNameNothing(Segments(spec));
  }

  lemma SegmentsBlank(spec: string)
    requires forall i | 0 <= i < |spec| :: spec[i] == ',' || IsSpace(spec[i])
    ensures forall k | 0 <= k < |Segments(spec)| :: Segments(spec)[k] == Blank
  {
    CommaSpacePieces(spec);
    ClassifyBlank(Split(spec, ","));
  }

  /** For `PortSpecExample`: the example specification splits into three segments. */
  lemma ExampleSpecSplit()
    ensures Split("80,22,100-102", ",") == ["80", "22", "100-102"]
  {
    var parts := ["80", "22", "100-102"];
    assert Join(parts, ",") == "80,22,100-102";
    SplitJoin(parts, ',');
  }

  /** For `PortSpecExample`: the ports of three segments, one after another. */
  lemma PortsOfThree(gs: seq<Segment>)
    requires |gs| == 3
    ensures PortsOf(gs) == SegmentPorts(gs[0]) + SegmentPorts(gs[1]) + SegmentPorts(gs[2])
  {
    var g1, g2 := gs[..1], gs[..2];
    assert g1[..0] == [];
    assert PortsOf(g1) == SegmentPorts(gs[0]);
    assert g2[..1] == g1;
    assert PortsOf(g2) == PortsOf(g1) + SegmentPorts(gs[1]);
    assert gs[..2] == g2;
  }

  /** For `PortSpecExample`: the expected port list is strictly increasing. */
  lemma ExamplePortsIncreasing()
    ensures StrictlyIncreasing([22, 80, 100, 101, 102])
  {
  }

  /** For `PortSpecExample`: the three example segments name no malformed text and collect to the expected list. */
  lemma ExampleSegmentPorts(gs: seq<Segment>, want: seq<int>)
    requires |gs| == 3 && gs[0] == Single(80) && gs[1] == Single(22) && gs[2] == Span(100, 102)
    requires want == [22, 80, 100, 101, 102]
    ensures !AnyMalformed(gs)
    ensures SortInts(Dedup(PortsOf(gs))) == want
  {
    forall i | 0 <= i < |gs|
      ensures !gs[i].Malformed?
    {
      if i == 0 {
      } else if i == 1 {
      } else {
      }
    }
    PortsOfThree(gs);
    var l := PortsOf(gs);
    assert l == [80, 22, 100, 101, 102] by {
      assert Range(100, 103) == [100, 101, 102];
    }
    var d := Dedup(l);
    SortDistinct(d);
    forall x
      ensures x in SortInts(d) <==> x in want
    {
      SortMembers(d, x);
      DedupMembers(l, x);
    }
    ExamplePortsIncreasing();
    IncreasingUnique(SortInts(d), want);
  }

  /** For `PortSpecExample`: two numerals and a range classify as two single ports and a span. */
  lemma ExampleSegmentsClassified(parts: seq<string>, d0: string, d1: string, da: string, db: string)
    requires Decimal(d0) && Decimal(d1) && Decimal(da) && Decimal(db)
    requires parts == [d0, d1, da + "-" + db]
    ensures |Classify(parts)| == 3
    ensures Classify(parts)[0] == Single(DigitsValue(d0)) && Classify(parts)[1] == Single(DigitsValue(d1))
    ensures Classify(parts)[2] == Span(DigitsValue(da), DigitsValue(db))
  {
    ClassifyAt(parts, 0);
    ClassifyAt(parts, 1);
    ClassifyAt(parts, 2);
    ClassifyNumber(d0);
    ClassifyNumber(d1);
    ClassifyRange(da, db);
  }

  /** For `PortSpecExample`: the range segment is the text `100-102`. */
  lemma ExampleRangeText()
    ensures "100" + "-" + "102" == "100-102"
  {
  }

  /** For `PortSpecExample`: the numerals of the example and their values. */
  lemma ExampleNumerals()
    ensures Decimal("80") && DigitsValue("80") == 80
    ensures Decimal("22") && DigitsValue("22") == 22
    ensures Decimal("100") && DigitsValue("100") == 100
    ensures Decimal("102") && DigitsValue("102") == 102
  {
  }

  /** The documented example: `"80,22,100-102"` parses to `[22, 80, 100, 101, 102]`. */
  lemma PortSpecExample()
    ensures !AnyMalformed(Segments("80,22,100-102"))
    ensures SortInts(Dedup(PortsOf(Segments("80,22,100-102")))) == [22, 80, 100, 101, 102]
  {
    PortSpecExampleOn("80,22,100-102", ["80", "22", "100-102"], [22, 80, 100, 101, 102]);
  }

  /** `PortSpecExample` with the literals passed in, so that each is unfolded once. */
  lemma PortSpecExampleOn(spec: string, parts: seq<string>, want: seq<int>)
    requires spec == "80,22,100-102" && parts == ["80", "22", "100-102"] && want == [22, 80, 100, 101, 102]
    ensures !AnyMalformed(Segments(spec))
    ensures SortInts(Dedup(PortsOf(Segments(spec)))) == want
  {
    ExampleSpecSplit();
    ExampleNumerals();
    ExampleRangeText();
    ExampleSegmentsClassified(parts, "80", "22", "100", "102");
    ExampleSegmentPorts(Segments(spec), want);
  }

  // ------------------------------------------------------------------
  // expand_targets
  // ------------------------------------------------------------------

  /**
   * What the scanner learns from the `ipaddress` module and from DNS, given as
   * functions: `networkHosts(t)` is `[str(ip) for ip in ip_network(t, strict=False).hosts()]`,
   * or `None` when `ip_network` raises `ValueError`; `isAddress(t)` holds when
   * `ip_address(t)` accepts `t`; `resolve(t)` is `socket.gethostbyname(t)`, or
   * `None` when it raises `socket.gaierror`.
   */
  datatype AddressOracle = AddressOracle(
    networkHosts: string -> Option<seq<string>>,
    isAddress: string -> bool,
    resolve: string -> Option<string>)

  /** The addresses one target string adds to `result` in the first loop of `expand_targets`. */
  function TargetHosts(o: AddressOracle, target: string): seq<string>
  {
    StrippedTargetHosts(o, Strip(target))
  }

  /** The branches of that loop body, on the target once stripped. */
  function StrippedTargetHosts(o: AddressOracle, t: string): seq<string>
  {
    if t == [] then []
    else if '/' in t && o.networkHosts(t).Some? then o.networkHosts(t).value
    else if '/' !in t && o.isAddress(t) then [t]
    else OptionToSeq(o.resolve(t))
  }

  /** `TargetHosts` for a fixed oracle, as a function value. */
  function HostsFor(o: AddressOracle): string -> seq<string>
  {
    t => TargetHosts(o, t)
  }

  /** The addresses each target adds, target by target. */
  function Contributions(o: AddressOracle, targets: seq<string>): (cs: seq<seq<string>>)
    ensures |cs| == |targets|
    ensures forall k | 0 <= k < |targets| :: cs[k] == TargetHosts(o, targets[k])
  {
    Map(HostsFor(o), targets)
  }

  /** The `result` list after the first loop: every target's addresses, in target order. */
  function RawHosts(o: AddressOracle, targets: seq<string>): seq<string>
  {
    Concat(Contributions(o, targets))
  }

  /** What `expand_targets` returns: the first-occurrence subsequence of `result`. */
  function Expanded(o: AddressOracle, targets: seq<string>): seq<string>
  {
    Dedup(RawHosts(o, targets))
  }

  lemma ContributionsAppend(o: AddressOracle, a: seq<string>, b: seq<string>)
    ensures Contributions(o, a + b) == Contributions(o, a) + Contributions(o, b)
  {
    MapAppend(HostsFor(o), a, b);
  }

  lemma RawHostsStep(o: AddressOracle, targets: seq<string>, k: nat)
    requires k < |targets|
    ensures RawHosts(o, targets[..k + 1]) == RawHosts(o, targets[..k]) + TargetHosts(o, targets[k])
  {
    assert targets[..k + 1] == targets[..k] + [targets[k]];
    ContributionsAppend(o, targets[..k], [targets[k]]);
    ConcatAppend(Contributions(o, targets[..k]), Contributions(o, [targets[k]]));
    assert Concat(Contributions(o, [targets[k]])) == Concat([]) + TargetHosts(o, targets[k]);
  }

  /** One pass of the first loop of `expand_targets`: the addresses one target contributes. */
  method TargetAddresses(o: AddressOracle, target: string) returns (hosts: seq<string>)
    ensures hosts == TargetHosts(o, target)
  {
    hosts := [];
    var t := Strip(target);
    if t == [] {
      return;
    }
    if '/' in t {
      var net := o.networkHosts(t);
      if net.Some? {
        var network := net.value;
        for j := 0 to |network|
          invariant hosts == network[..j]
        {
          hosts := hosts + [network[j]];
          PrefixStep(network, j);
        }
        assert network[..|network|] == network;
        return;
      }
    } else if o.isAddress(t) {
      hosts := [t];
      return;
    }
    match o.resolve(t)
    case Some(a) =>
      hosts := [a];
    case None =>
  }

  /** The first loop of `expand_targets`: every target's addresses, in target order, repeats kept. */
  method CollectHosts(o: AddressOracle, targets: seq<string>) returns (result: seq<string>)
    ensures result == RawHosts(o, targets)
  {
    result := [];
    for k := 0 to |targets|
      invariant result == RawHosts(o, targets[..k])
    {
      RawHostsStep(o, targets, k);
      var hosts := TargetAddresses(o, targets[k]);
      result := result + hosts;
    }
    assert targets[..|targets|] == targets;
  }

  /** `expand_targets`: collect each target's addresses, then drop repeats keeping first occurrences. */
  method ExpandTargets(o: AddressOracle, targets: seq<string>) returns (unique: seq<string>)
    ensures unique == Expanded(o, targets)
    ensures NoDup(unique)
  {
    var result := CollectHosts(o, targets);
    var seen: set<string> := {};
    unique := [];
    for i := 0 to |result|
      invariant unique == Dedup(result[..i])
      invariant forall x :: x in seen <==> x in unique
    {
      DedupStep(result, i);
      if result[i] in seen {
        continue;
      }
      seen := seen + {result[i]};
      unique := unique + [result[i]];
    }
    assert result[..|result|] == result;
  }

  /** An address in the raw list comes from some target, and every target's addresses are in it. */
  lemma RawHostsMembers(o: AddressOracle, targets: seq<string>, x: string)
    ensures x in RawHosts(o, targets) <==> exists k | 0 <= k < |targets| :: x in TargetHosts(o, targets[k])
  {
    ConcatMembers(Contributions(o, targets), x);
  }

  /** The set of expanded addresses is the set of raw addresses: those some target yields. */
  lemma ExpandedMembers(o: AddressOracle, targets: seq<string>, x: string)
    ensures x in Expanded(o, targets) <==> x in RawHosts(o, targets)
    ensures x in Expanded(o, targets) <==> exists k | 0 <= k < |targets| :: x in TargetHosts(o, targets[k])
  {
    DedupMembers(RawHosts(o, targets), x);
    RawHostsMembers(o, targets, x);
  }

  /** Expansion keeps first-occurrence order: earlier in the output means first seen earlier. */
  lemma ExpandedKeepsOrder(o: AddressOracle, targets: seq<string>, i: nat, j: nat)
    requires i < j < |Expanded(o, targets)|
    ensures FirstIndex(RawHosts(o, targets), Expanded(o, targets)[i])
          < FirstIndex(RawHosts(o, targets), Expanded(o, targets)[j])
  {
    DedupKeepsOrder(RawHosts(o, targets), i, j);
  }

  lemma RawHostsAppend(o: AddressOracle, a: seq<string>, b: seq<string>)
    ensures RawHosts(o, a + b) == RawHosts(o, a) + RawHosts(o, b)
  {
    ContributionsAppend(o, a, b);
    ConcatAppend(Contributions(o, a), Contributions(o, b));
  }

  /** A target that yields no address can be removed from the target list without effect. */
  lemma SilentTargetIgnored(o: AddressOracle, a: seq<string>, t: string, b: seq<string>)
    requires TargetHosts(o, t) == []
    ensures Expanded(o, a + [t] + b) == Expanded(o, a + b)
  {
    ContributionsAppend(o, a + [t], b);
    ContributionsAppend(o, a, [t]);
    ContributionsAppend(o, a, b);
    assert Contributions(o, [t]) == [[]];
    ConcatDropEmpty(Contributions(o, a), Contributions(o, b));
  }

  /** Empty and whitespace-only targets are skipped. */
  lemma BlankTargetIgnored(o: AddressOracle, a: seq<string>, t: string, b: seq<string>)
    requires AllSpace(t)
    ensures Expanded(o, a + [t] + b) == Expanded(o, a + b)
  {
    SilentTargetIgnored(o, a, t, b);
  }

  /**
   * A target that is neither a valid CIDR block (when it has a `/`) nor an IP
   * literal (when it has none), and whose name does not resolve, is skipped.
   */
  lemma UnresolvableTargetIgnored(o: AddressOracle, a: seq<string>, t: string, b: seq<string>)
    requires '/' in Strip(t) ==> o.networkHosts(Strip(t)).None?
    requires '/' !in Strip(t) ==> !o.isAddress(Strip(t))
    requires o.resolve(Strip(t)).None?
    ensures Expanded(o, a + [t] + b) == Expanded(o, a + b)
  {
    SilentTargetIgnored(o, a, t, b);
  }

  /** An IP literal is kept as written, after stripping. */
  lemma AddressKeptVerbatim(o: AddressOracle, t: string)
    requires Strip(t) != [] && '/' !in Strip(t) && o.isAddress(Strip(t))
    ensures TargetHosts(o, t) == [Strip(t)]
  {
  }

  /** A block is replaced by its hosts, in the order `hosts()` lists them. */
  lemma NetworkExpandedToHosts(o: AddressOracle, t: string)
    requires '/' in Strip(t) && o.networkHosts(Strip(t)).Some?
    ensures TargetHosts(o, t) == o.networkHosts(Strip(t)).value
  {
  }

  /** A name that is neither a block nor an IP literal is resolved: one address, or nothing when resolution fails. */
  lemma HostnameResolved(o: AddressOracle, target: string)
    requires Strip(target) != [] && '/' !in Strip(target) && !o.isAddress(Strip(target))
    ensures TargetHosts(o, target) == OptionToSeq(o.resolve(Strip(target)))
  {
    HostnameBranch(o, Strip(target));
  }

  /** The name branch on stripped text: no `/`, not an IP literal, so name resolution decides. */
  lemma HostnameBranch(o: AddressOracle, s: string)
    requires s != [] && '/' !in s && !o.isAddress(s)
    ensures StrippedTargetHosts(o, s) == OptionToSeq(o.resolve(s))
  {
  }

  /**
   * A target with a `/` that is not a valid block is treated as a host name,
   * even when the failed text would have been accepted by `ip_address`.
   */
  lemma CidrFallsBackToDns(o: AddressOracle, t: string)
    requires '/' in Strip(t) && o.networkHosts(Strip(t)).None?
    ensures TargetHosts(o, t) == OptionToSeq(o.resolve(Strip(t)))
  {
    CidrBranch(o, Strip(t));
  }

  /** The fallback branch on stripped text: no valid block, so name resolution decides. */
  lemma CidrBranch(o: AddressOracle, s: string)
    requires '/' in s && o.networkHosts(s).None?
    ensures StrippedTargetHosts(o, s) == OptionToSeq(o.resolve(s))
  {
  }

  /** A string that `expand_targets` keeps unchanged as an IP literal. */
  predicate LiteralAddress(o: AddressOracle, x: string)
  {
    x != [] && Strip(x) == x && '/' !in x && o.isAddress(x)
  }

  lemma LiteralKept(o: AddressOracle, x: string)
    requires LiteralAddress(o, x)
    ensures TargetHosts(o, x) == [x]
  {
  }

  lemma RawHostsOfLiterals(o: AddressOracle, xs: seq<string>)
    requires forall i | 0 <= i < |xs| :: LiteralAddress(o, xs[i])
    ensures RawHosts(o, xs) == xs
  {
    forall i | 0 <= i < |xs|
      ensures Contributions(o, xs)[i] == [xs[i]]
    {
      LiteralKept(o, xs[i]);
    }
    ConcatSingletons(Contributions(o, xs), xs);
  }

  /** Expanding an already expanded list of IP literals gives it back unchanged. */
  lemma ExpandIdempotent(o: AddressOracle, targets: seq<string>)
    requires forall i | 0 <= i < |Expanded(o, targets)| :: LiteralAddress(o, Expanded(o, targets)[i])
    ensures Expanded(o, Expanded(o, targets)) == Expanded(o, targets)
  {
    var e := Expanded(o, targets);
    RawHostsOfLiterals(o, e);
    DedupOfDistinct(e);
  }

  // ------------------------------------------------------------------
  // _scan_host and scan_targets
  // ------------------------------------------------------------------

  /** The connect outcome of `_probe_port(host, port, timeout)`: true when the port accepted. */
  type Probe = (string, int) -> bool

  /** `HostScanResult`, and equally the `{host, open_ports}` record `scan_targets` returns. */
  datatype HostScan = HostScan(host: string, openPorts: seq<int>)

  /** The ports (with repeats) whose probe succeeded, in the order of `ports`. */
  function OpenedPorts(host: string, ports: seq<int>, isOpen: Probe): seq<int>
  {
    if ports == [] then []
    else
      var init := OpenedPorts(host, ports[..|ports| - 1], isOpen);
      if isOpen(host, ports[|ports| - 1]) then init + [ports[|ports| - 1]] else init
  }

  /** What `_scan_host` returns: the opened ports, sorted ascending. */
  function HostResult(host: string, ports: seq<int>, isOpen: Probe): HostScan
  {
    HostScan(host, SortInts(OpenedPorts(host, ports, isOpen)))
  }

  /** A port occurs among the opened ports as often as it was probed, when it is open, else never. */
  lemma {:induction false} OpenedPortsCount(host: string, ports: seq<int>, isOpen: Probe, p: int)
    ensures multiset(OpenedPorts(host, ports, isOpen))[p] == if isOpen(host, p) then multiset(ports)[p] else 0
  {
    if ports != [] {
      var init := ports[..|ports| - 1];
      OpenedPortsCount(host, init, isOpen, p);
      assert ports == init + [ports[|ports| - 1]];
    }
  }

  /**
   * The open ports of a host are sorted, and hold each probed port whose probe
   * succeeded, as many times as it was listed in `ports`, and nothing else.
   */
  lemma HostResultMeaning(host: string, ports: seq<int>, isOpen: Probe, p: int)
    ensures HostResult(host, ports, isOpen).host == host
    ensures Sorted(HostResult(host, ports, isOpen).openPorts)
    ensures multiset(HostResult(host, ports, isOpen).openPorts)[p] == if isOpen(host, p) then multiset(ports)[p] else 0
    ensures p in HostResult(host, ports, isOpen).openPorts <==> p in ports && isOpen(host, p)
  {
    OpenedPortsCount(host, ports, isOpen, p);
  }

  /**
   * The probes finish in any order; whatever order they appended in, the sorted
   * list is the same.
   */
  lemma CompletionOrderIrrelevant(host: string, ports: seq<int>, isOpen: Probe, completed: seq<int>)
    requires multiset(completed) == multiset(OpenedPorts(host, ports, isOpen))
    ensures SortInts(completed) == HostResult(host, ports, isOpen).openPorts
  {
    SortOrderIndependent(completed, OpenedPorts(host, ports, isOpen));
  }

  /** `_scan_host`: probe every port, append the ones that are open, then sort in place. */
  method ScanHost(host: string, ports: seq<int>, isOpen: Probe) returns (r: HostScan)
    ensures r == HostResult(host, ports, isOpen)
  {
    var openPorts: seq<int> := [];
    for k := 0 to |ports|
      invariant openPorts == OpenedPorts(host, ports[..k], isOpen)
    {
      assert ports[..k + 1][..k] == ports[..k];
      if isOpen(host, ports[k]) {
        openPorts := openPorts + [ports[k]];
      }
    }
    assert ports[..|ports|] == ports;
    openPorts := SortInts(openPorts);
    r := HostScan(host, openPorts);
  }

  /** The ports `scan_targets` probes: the caller's list, or the defaults when it passes none. */
  function PortsToProbe(ports: Option<seq<int>>): seq<int>
  {
    ports.GetOr(DefaultCommonPorts)
  }

  /** One `_scan_host` result per address, in the order of `hosts`. */
  function HostResults(hosts: seq<string>, ports: seq<int>, isOpen: Probe): (rs: seq<HostScan>)
    ensures |rs| == |hosts|
  {
    seq(|hosts|, i requires 0 <= i < |hosts| => HostResult(hosts[i], ports, isOpen))
  }

  /** What `scan_targets` returns: one record per expanded host, in expansion order. */
  function ScanReport(o: AddressOracle, targets: seq<string>, ports: Option<seq<int>>, isOpen: Probe): seq<HostScan>
  {
    HostResults(Expanded(o, targets), PortsToProbe(ports), isOpen)
  }

  /**
   * `scan_targets` reports every expanded host exactly once, in expansion order,
   * each with the result of scanning the requested (or default) ports.
   */
  lemma ScanReportMeaning(o: AddressOracle, targets: seq<string>, ports: Option<seq<int>>, isOpen: Probe, i: nat, p: int)
    requires i < |ScanReport(o, targets, ports, isOpen)|
    ensures ScanReport(o, targets, ports, isOpen)[i].host == Expanded(o, targets)[i]
    ensures ports.None? ==> (p in ScanReport(o, targets, ports, isOpen)[i].openPorts <==> p in [22, 80, 443] && isOpen(Expanded(o, targets)[i], p))
    ensures ports.Some? ==> (p in ScanReport(o, targets, ports, isOpen)[i].openPorts <==> p in ports.value && isOpen(Expanded(o, targets)[i], p))
    ensures Sorted(ScanReport(o, targets, ports, isOpen)[i].openPorts)
    ensures forall j | 0 <= j < |ScanReport(o, targets, ports, isOpen)| && j != i ::
              ScanReport(o, targets, ports, isOpen)[j].host != ScanReport(o, targets, ports, isOpen)[i].host
  {
    HostResultMeaning(Expanded(o, targets)[i], PortsToProbe(ports), isOpen, p);
  }

  /** `asyncio.gather` over `_scan_host`: the results come back in the order of `hosts`. */
  method ScanHosts(hosts: seq<string>, ports: seq<int>, isOpen: Probe) returns (records: seq<HostScan>)
    ensures records == HostResults(hosts, ports, isOpen)
  {
    records := [];
    for i := 0 to |hosts|
      invariant |records| == i
      invariant forall k | 0 <= k < i :: records[k] == HostResult(hosts[k], ports, isOpen)
    {
      var r := ScanHost(hosts[i], ports, isOpen);
      records := records + [r];
    }
  }

  /** `scan_targets`: expand the targets, scan each host, and shape one record per host. */
  method ScanTargets(o: AddressOracle, targets: seq<string>, ports: Option<seq<int>>, isOpen: Probe)
    returns (records: seq<HostScan>)
    ensures records == ScanReport(o, targets, ports, isOpen)
  {
    var probed := if ports.None? then DefaultCommonPorts else ports.value;
    var ips := ExpandTargets(o, targets);
    records := ScanHosts(ips, probed, isOpen);
  }
}
