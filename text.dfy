/**
 * The string operations of Python's `str` that the scanner relies on:
 * whitespace stripping, ASCII lower-casing, substring search, `split`
 * and base-10 `int()` parsing.
 */
module Text {
  import opened Wrappers

  /**
   * The characters for which Python's `str.isspace()` holds; `strip()` trims these. `int()` trims
   * them too, except the four ASCII information separators (see `IntSpaceOnly`).
   */
  predicate IsSpace(c: char)
  {
    ('\t' <= c <= '\r') || ('\U{1C}' <= c <= ' ') || c == '\U{85}' || c == '\U{A0}'
    || c == '\U{1680}' || ('\U{2000}' <= c <= '\U{200A}') || c == '\U{2028}' || c == '\U{2029}'
    || c == '\U{202F}' || c == '\U{205F}' || c == '\U{3000}'
  }

  predicate AllSpace(s: string)
  {
    forall i | 0 <= i < |s| :: IsSpace(s[i])
  }

  /** Neither end of `s` is whitespace (the shape of every result of `Strip`). */
  predicate Trimmed(s: string)
  {
    s == [] || (!IsSpace(s[0]) && !IsSpace(s[|s| - 1]))
  }

  /** Python's `str.lstrip()`: the suffix left after dropping leading whitespace. */
  function TrimStart(s: string): (r: string)
    ensures |r| <= |s| && r == s[|s| - |r|..]
    ensures AllSpace(s[..|s| - |r|])
    ensures r == [] || !IsSpace(r[0])
  {
    if s != [] && IsSpace(s[0]) then
      var r := TrimStart(s[1..]);
      assert s[|s| - |r|..] == s[1..][|s| - 1 - |r|..];
      assert forall i | 1 <= i < |s| - |r| :: s[i] == s[1..][..|s| - 1 - |r|][i - 1];
      r
    else
      s
  }

  /** Python's `str.rstrip()`: the prefix left after dropping trailing whitespace. */
  function TrimEnd(s: string): (r: string)
    ensures |r| <= |s| && r == s[..|r|]
    ensures AllSpace(s[|r|..])
    ensures r == [] || !IsSpace(r[|r| - 1])
  {
    if s != [] && IsSpace(s[|s| - 1]) then
      var r := TrimEnd(s[..|s| - 1]);
      assert s[..|r|] == s[..|s| - 1][..|r|];
      assert forall i | |r| <= i < |s| - 1 :: s[i] == s[..|s| - 1][|r|..][i - |r|];
      r
    else
      s
  }

  /** Python's `str.strip()` with no argument. */
  function Strip(s: string): (r: string)
    ensures Trimmed(r)
    ensures r == [] <==> AllSpace(s)
    ensures |r| <= |s|
  {
    var t := TrimStart(s);
    assert t == [] ==> AllSpace(s) by {
      if t == [] {
        assert s[..|s|] == s;
      }
    }
    TrimEnd(t)
  }

  lemma {:induction false} TrimStartSkips(p: string, t: string)
    requires AllSpace(p)
    ensures TrimStart(p + t) == TrimStart(t)
    decreases |p|
  {
    if p != [] {
      assert (p + t)[0] == p[0];
      assert (p + t)[1..] == p[1..] + t;
      assert TrimStart(p + t) == TrimStart((p + t)[1..]);
      TrimStartSkips(p[1..], t);
    } else {
      assert p + t == t;
    }
  }

  lemma {:induction false} TrimEndSkips(t: string, q: string)
    requires AllSpace(q)
    ensures TrimEnd(t + q) == TrimEnd(t)
    decreases |q|
  {
    if q != [] {
      assert (t + q)[|t + q| - 1] == q[|q| - 1];
      assert (t + q)[..|t + q| - 1] == t + q[..|q| - 1];
      assert TrimEnd(t + q) == TrimEnd((t + q)[..|t + q| - 1]);
      TrimEndSkips(t, q[..|q| - 1]);
    } else {
      assert t + q == t;
    }
  }

  /**
   * What `Strip` removes is exactly the whitespace around its result: a trimmed
   * text framed by whitespace strips back to itself.
   */
  lemma StripFrame(p: string, m: string, q: string)
    requires AllSpace(p) && AllSpace(q) && Trimmed(m)
    ensures Strip(p + m + q) == m
  {
    assert p + m + q == p + (m + q);
    TrimStartSkips(p, m + q);
    if m == [] {
      assert m + q == q;
      StripBlank(q);
    } else {
      StripFrameEnd(m, q);
    }
  }

  /** Whitespace strips to nothing. */
  lemma StripBlank(q: string)
    requires AllSpace(q)
    ensures TrimEnd(TrimStart(q)) == []
  {
  }

  /** A trimmed text followed by whitespace strips back to itself. */
  lemma StripFrameEnd(m: string, q: string)
    requires AllSpace(q) && Trimmed(m) && m != []
    ensures TrimEnd(TrimStart(m + q)) == m
  {
    assert TrimStart(m + q) == m + q by {
      assert (m + q)[0] == m[0];
    }
    TrimEndSkips(m, q);
  }

  /** Stripping twice is stripping once. */
  lemma StripIdempotent(s: string)
    ensures Strip(Strip(s)) == Strip(s)
  {
    StripTrimmed(Strip(s));
  }

  lemma StripTrimmed(m: string)
    requires Trimmed(m)
    ensures Strip(m) == m
  {
    assert TrimStart(m) == m;
  }

  /** Stripping only removes characters. */
  lemma StripChars(s: string, c: char)
    requires c in Strip(s)
    ensures c in s
  {
    var t := TrimStart(s);
    var r := TrimEnd(t);
    assert r == Strip(s);
    var i :| 0 <= i < |r| && r[i] == c;
    assert r == t[..|r|];
    assert t[i] == c;
    assert t == s[|s| - |t|..];
    assert s[|s| - |t| + i] == c;
  }

  function LowerChar(c: char): char
  {
    if 'A' <= c <= 'Z' then (c as int + 32) as char else c
  }

  /** Python's `str.lower()`, restricted to the ASCII letters. */
  function Lower(s: string): (r: string)
    ensures |r| == |s|
    ensures forall i | 0 <= i < |s| :: r[i] == LowerChar(s[i])
  {
    if s == [] then [] else [LowerChar(s[0])] + Lower(s[1..])
  }

  /** `pat` occurs in `s` starting at index `i`. */
  predicate OccursAt(s: string, pat: string, i: int)
  {
    0 <= i && i + |pat| <= |s| && s[i..i + |pat|] == pat
  }

  /** The first occurrence of `pat` in `s` at or after `from`. */
  function FindFrom(s: string, pat: string, from: nat): (r: Option<nat>)
    ensures r.Some? ==> from <= r.value && OccursAt(s, pat, r.value)
    ensures r.Some? ==> forall j | from <= j < r.value :: !OccursAt(s, pat, j)
    ensures r.None? ==> forall j | from <= j :: !OccursAt(s, pat, j)
    decreases |s| - from
  {
    if from + |pat| > |s| then None
    else if s[from..from + |pat|] == pat then Some(from)
    else FindFrom(s, pat, from + 1)
  }

  /** Python's `s.find(pat)`, with "not found" as `None`. */
  function Find(s: string, pat: string): (r: Option<nat>)
    ensures r.Some? ==> OccursAt(s, pat, r.value) && forall j | 0 <= j < r.value :: !OccursAt(s, pat, j)
    ensures r.None? <==> forall j :: !OccursAt(s, pat, j)
  {
    FindFrom(s, pat, 0)
  }

  /** Python's `pat in s` for strings. */
  predicate Contains(s: string, pat: string)
  {
    Find(s, pat).Some?
  }

  /** A single character `c` is a substring of `s` exactly when it is one of its characters. */
  lemma ContainsChar(s: string, c: char)
    ensures Contains(s, [c]) <==> c in s
  {
    if c in s {
      var i :| 0 <= i < |s| && s[i] == c;
      assert OccursAt(s, [c], i);
    }
    if Contains(s, [c]) {
      var i := Find(s, [c]).value;
      assert s[i..i + 1][0] == s[i];
    }
  }

  lemma PrefixBeforeFirst(s: string, pat: string, i: nat)
    requires pat != []
    requires i <= |s| && forall j | 0 <= j < i :: !OccursAt(s, pat, j)
    ensures !Contains(s[..i], pat)
  {
    forall j | OccursAt(s[..i], pat, j)
      ensures false
    {
      assert s[..i][j..j + |pat|] == s[j..j + |pat|];
      assert OccursAt(s, pat, j);
    }
  }

  /** No character is an ASCII capital. */
  predicate NoUpper(s: string)
  {
    forall i | 0 <= i < |s| :: !('A' <= s[i] <= 'Z')
  }

  /** `lower()` leaves no capital, keeps whitespace where it was, and makes no character that is not a lower-case letter. */
  lemma LowerShape(s: string, c: char)
    ensures NoUpper(Lower(s))
    ensures Trimmed(s) ==> Trimmed(Lower(s))
    ensures c !in s && !('a' <= c <= 'z') ==> c !in Lower(s)
  {
    if c in Lower(s) && !('a' <= c <= 'z') {
      var i :| 0 <= i < |s| && Lower(s)[i] == c;
      assert s[i] == c;
    }
  }

  /** Python's `s.split(sep)` for a non-empty separator. */
  function Split(s: string, sep: string): (r: seq<string>)
    requires sep != []
    ensures |r| >= 1
    ensures forall i | 0 <= i < |r| :: !Contains(r[i], sep)
    decreases |s|
  {
    match Find(s, sep)
    case None => [s]
    case Some(i) =>
      PrefixBeforeFirst(s, sep, i);
      [s[..i]] + Split(s[i + |sep|..], sep)
  }

  /** Pieces joined by `sep`; it serves to compute `split` on concrete texts. */
  function Join(parts: seq<string>, sep: string): string
  {
    if parts == [] then []
    else if |parts| == 1 then parts[0]
    else parts[0] + sep + Join(parts[1..], sep)
  }

  /** The first occurrence of a character is where `find` stops. */
  lemma FindCharAt(s: string, c: char, i: nat)
    requires i < |s| && s[i] == c && c !in s[..i]
    ensures Find(s, [c]) == Some(i)
  {
    assert OccursAt(s, [c], i);
    forall j | 0 <= j < i
      ensures !OccursAt(s, [c], j)
    {
      assert s[..i][j] == s[j];
    }
  }

  lemma FindNoChar(s: string, c: char)
    requires c !in s
    ensures Find(s, [c]) == None
  {
    ContainsChar(s, c);
  }

  lemma SplitAtChar(s: string, c: char, i: nat)
    requires i < |s| && s[i] == c && c !in s[..i]
    ensures Split(s, [c]) == [s[..i]] + Split(s[i + 1..], [c])
  {
    FindCharAt(s, c, i);
  }

  /** Text without a carriage return holds no CRLF. */
  lemma NoCrlfWithoutCr(line: string)
    requires '\r' !in line
    ensures !Contains(line, "\r\n")
  {
    forall j | 0 <= j < |line|
      ensures !OccursAt(line, "\r\n", j)
    {
      assert line[j] != '\r';
    }
  }

  /** Text up to the first CRLF, holding no CRLF of its own, is the first piece of `split("\r\n")`; a bare CR at its end does not pair with the separator. */
  lemma SplitFirstLine(line: string, rest: string)
    requires !Contains(line, "\r\n")
    ensures Split(line + "\r\n" + rest, "\r\n") == [line] + Split(rest, "\r\n")
  {
    var s := line + "\r\n" + rest;
    assert s[|line|..|line| + 2] == "\r\n";
    assert OccursAt(s, "\r\n", |line|);
    forall j | 0 <= j < |line|
      ensures !OccursAt(s, "\r\n", j)
    {
      if j + 2 <= |line| {
        assert s[j..j + 2] == line[j..j + 2];
        assert !OccursAt(line, "\r\n", j);
      } else {
        assert s[j + 1] == '\r';
      }
    }
    assert Find(s, "\r\n") == Some(|line|);
    assert s[..|line|] == line;
    assert s[|line| + 2..] == rest;
  }

  /** Joining pieces free of a one-character separator and splitting again gives the pieces back. */
  lemma {:induction false} SplitJoin(parts: seq<string>, c: char)
    requires parts != [] && forall i | 0 <= i < |parts| :: c !in parts[i]
    ensures Split(Join(parts, [c]), [c]) == parts
  {
    if |parts| == 1 {
      assert Join(parts, [c]) == parts[0];
      FindNoChar(parts[0], c);
    } else {
      var head, tl := parts[0], parts[1..];
      var rest := Join(tl, [c]);
      var s := head + [c] + rest;
      assert Join(parts, [c]) == s;
      assert forall i | 0 <= i < |tl| :: c !in tl[i] by {
        forall i | 0 <= i < |tl|
          ensures c !in tl[i]
        {
          assert tl[i] == parts[i + 1];
        }
      }
      SplitJoin(tl, c);
      SplitAfterPiece(head, c, rest);
      assert parts == [head] + tl;
    }
  }

  /** A piece free of the separator, then the separator: the piece comes off first. */
  lemma SplitAfterPiece(head: string, c: char, rest: string)
    requires c !in head
    ensures Split(head + [c] + rest, [c]) == [head] + Split(rest, [c])
  {
    var s := head + [c] + rest;
    assert s[..|head|] == head && s[|head|] == c;
    SplitAtChar(s, c, |head|);
    assert s[|head| + 1..] == rest;
  }

  /** `split` at its first separator: the text before it, then the pieces of the rest. */
  lemma SplitAtFirst(s: string, sep: string, i: nat)
    requires sep != [] && Find(s, sep) == Some(i)
    ensures i + |sep| <= |s|
    ensures Split(s, sep) == [s[..i]] + Split(s[i + |sep|..], sep)
  {
  }

  /** A character of a slice is a character of the text. */
  lemma SliceCharIn(s: string, lo: nat, hi: nat, c: char)
    requires lo <= hi <= |s| && c in s[lo..hi]
    ensures c in s
  {
    var j :| 0 <= j < hi - lo && s[lo..hi][j] == c;
    assert s[lo + j] == c;
  }

  /** Every character of every piece of `split` comes from the split text. */
  lemma {:induction false} SplitChars(s: string, sep: string, k: nat, c: char)
    requires sep != []
    requires k < |Split(s, sep)| && c in Split(s, sep)[k]
    ensures c in s
    decreases |s|
  {
    match Find(s, sep)
    case None =>
      assert Split(s, sep) == [s];
    case Some(i) =>
      SplitAtFirst(s, sep, i);
      if k == 0 {
        assert s[..i] == s[0..i];
        SliceCharIn(s, 0, i, c);
      } else {
        var tail := s[i + |sep|..];
        assert c in tail by {
          assert Split(s, sep)[k] == Split(tail, sep)[k - 1];
          SplitChars(tail, sep, k - 1, c);
        }
        assert tail == s[i + |sep|..|s|];
        SliceCharIn(s, i + |sep|, |s|, c);
      }
  }

  predicate IsDigit(c: char)
  {
    '0' <= c <= '9'
  }

  /** A run of decimal digits with single underscores between digits (the grouping `int()` accepts). */
  predicate DigitRun(s: string)
  {
    && |s| > 0 && IsDigit(s[0]) && IsDigit(s[|s| - 1])
    && (forall i | 0 <= i < |s| :: IsDigit(s[i]) || s[i] == '_')
    && (forall i | 0 <= i < |s| - 1 :: s[i] == '_' ==> s[i + 1] != '_')
  }

  /** The number a digit run denotes, underscores ignored. */
  function DigitsValue(s: string): nat
  {
    if s == [] then 0
    else if IsDigit(s[|s| - 1]) then 10 * DigitsValue(s[..|s| - 1]) + (s[|s| - 1] as int - '0' as int)
    else DigitsValue(s[..|s| - 1])
  }

  /** An optional sign followed by a digit run, as `int()` reads a text without surrounding whitespace. */
  function ParseSigned(t: string): Option<int>
  {
    if t != [] && (t[0] == '+' || t[0] == '-') then
      if DigitRun(t[1..]) then
        var v: int := DigitsValue(t[1..]);
        Some(if t[0] == '-' then -v else v)
      else None
    else if DigitRun(t) then Some(DigitsValue(t))
    else None
  }

  /** U+001C..U+001F: whitespace to `str.isspace()`, but not to the ASCII test `int()` trims with. */
  predicate IsInfoSeparator(c: char)
  {
    '\U{1C}' <= c <= '\U{1F}'
  }

  /** Whitespace that `int()` skips: every `isspace` character but the information separators. */
  predicate IntSpaceOnly(w: string)
  {
    forall i | 0 <= i < |w| :: !IsInfoSeparator(w[i])
  }

  /**
   * Python's `int(s)` in base 10: surrounding whitespace is ignored, an optional
   * sign, then a digit run. `None` stands for the `ValueError` that `int()` raises.
   * Non-ASCII whitespace is skipped, since `int()` first turns it into a space, but an
   * information separator is not: one at either end leaves a character that is no
   * digit or sign in front of, or after, the numeral.
   */
  function ParseInt(s: string): (r: Option<int>)
    ensures r.Some? ==> Strip(s) != []
  {
    var lead := TrimStart(s);
    var t := TrimEnd(lead);
    if IntSpaceOnly(s[..|s| - |lead|]) && IntSpaceOnly(lead[|t|..]) then ParseSigned(t) else None
  }

  /** A slice of separator-free text is separator-free. */
  lemma IntSpaceOnlySlice(w: string, i: nat, j: nat)
    requires IntSpaceOnly(w) && i <= j <= |w|
    ensures IntSpaceOnly(w[i..j])
  {
    forall k | 0 <= k < j - i
      ensures !IsInfoSeparator(w[i..j][k])
    {
      assert w[i..j][k] == w[i + k];
    }
  }

  /** The ends cut off a separator-free text are separator-free. */
  lemma IntSpaceOnlyEnds(s: string, lead: string, t: string)
    requires IntSpaceOnly(s) && |lead| <= |s| && lead == s[|s| - |lead|..] && |t| <= |lead|
    ensures IntSpaceOnly(s[..|s| - |lead|]) && IntSpaceOnly(lead[|t|..])
  {
    var k := |s| - |lead|;
    IntSpaceOnlySlice(s, 0, k);
    assert s[..k] == s[0..k];
    IntSpaceOnlySlice(s, k + |t|, |s|);
    assert lead[|t|..] == s[k + |t|..|s|];
  }

  /** Without information separators, `int()` reads exactly the `strip()`ped text. */
  lemma ParseIntOfStripped(s: string)
    requires IntSpaceOnly(s)
    ensures ParseInt(s) == ParseSigned(Strip(s))
  {
    var lead := TrimStart(s);
    IntSpaceOnlyEnds(s, lead, TrimEnd(lead));
  }

  /** Text with no whitespace at either end is read by `int()` as it stands. */
  lemma ParseIntOfTrimmed(t: string)
    requires Trimmed(t)
    ensures ParseInt(t) == ParseSigned(t)
  {
    assert TrimStart(t) == t;
    assert TrimEnd(t) == t;
    assert t[..0] == [] && t[|t|..] == [];
  }

  /** `lstrip()` keeps a text that starts with a non-space. */
  lemma TrimStartTrimmed(s: string)
    requires s != [] && !IsSpace(s[0])
    ensures TrimStart(s) == s
  {
  }

  /** `rstrip()` drops a trailing space and goes on. */
  lemma TrimEndDrops(s: string)
    requires s != [] && IsSpace(s[|s| - 1])
    ensures TrimEnd(s) == TrimEnd(s[..|s| - 1])
  {
  }

  /** `rstrip()` keeps a text that ends with a non-space. */
  lemma TrimEndTrimmed(s: string)
    requires s != [] && !IsSpace(s[|s| - 1])
    ensures TrimEnd(s) == s
  {
  }

  /** `lstrip()` keeps a numeral followed by any character. */
  lemma NumeralKeepsStart(d: string, c: char)
    requires Decimal(d)
    ensures TrimStart(d + [c]) == d + [c]
  {
    var s := d + [c];
    assert s[0] == d[0] && IsDigit(d[0]);
    TrimStartTrimmed(s);
  }

  /** `rstrip()` removes an information separator after a numeral. */
  lemma NumeralDropsSeparator(d: string, c: char)
    requires Decimal(d) && IsInfoSeparator(c)
    ensures TrimEnd(d + [c]) == d
  {
    var s := d + [c];
    assert s[|s| - 1] == c && IsSpace(c);
    TrimEndDrops(s);
    assert s[..|s| - 1] == d;
    assert IsDigit(d[|d| - 1]);
    TrimEndTrimmed(d);
  }

  /** An information separator at the end of a numeral makes `int()` fail, though `strip()` removes it. */
  lemma ParseIntRejectsTrailingSeparator(d: string, c: char)
    requires Decimal(d) && IsInfoSeparator(c)
    ensures Strip(d + [c]) == d
    ensures ParseInt(d + [c]) == None
  {
    var s := d + [c];
    NumeralKeepsStart(d, c);
    NumeralDropsSeparator(d, c);
    assert !IntSpaceOnly(s[|d|..]) by {
      assert s[|d|..][0] == c;
    }
  }

  /** A plain decimal numeral: one or more digits, no sign, no underscores. */
  predicate Decimal(d: string)
  {
    |d| >= 1 && forall i | 0 <= i < |d| :: IsDigit(d[i])
  }

  lemma ParseSignedOfDigits(d: string)
    requires Decimal(d)
    ensures ParseSigned(d) == Some(DigitsValue(d))
  {
    assert DigitRun(d);
    assert IsDigit(d[0]);
  }

  /** `int()` reads a plain numeral as the number its digits denote. */
  lemma ParseIntOfDigits(d: string)
    requires Decimal(d)
    ensures ParseInt(d) == Some(DigitsValue(d))
  {
    assert Trimmed(d) by {
      assert IsDigit(d[0]) && IsDigit(d[|d| - 1]);
    }
    ParseIntOfTrimmed(d);
    ParseSignedOfDigits(d);
  }

  lemma ParseSignedRejects(t: string, i: nat)
    requires i < |t|
    requires !IsDigit(t[i]) && t[i] != '+' && t[i] != '-' && t[i] != '_'
    ensures ParseSigned(t) == None
  {
    if t[0] == '+' || t[0] == '-' {
      assert i > 0;
      assert t[1..][i - 1] == t[i];
    }
  }

  /** `int()` rejects every text whose stripped form has a character that is not a digit, a sign or `_`. */
  lemma ParseIntRejects(s: string, i: nat)
    requires i < |Strip(s)|
    requires var c := Strip(s)[i]; !IsDigit(c) && c != '+' && c != '-' && c != '_'
    ensures ParseInt(s) == None
  {
    var lead := TrimStart(s);
    assert TrimEnd(lead) == Strip(s);
    ParseSignedRejects(Strip(s), i);
  }
}
