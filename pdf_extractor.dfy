/** The PDF page extractor: page-range parsing and validation, extraction
    through `pdftotext` with optional page flags, the fallback that scans the
    raw file for `(...)` groups, the 50-lines-per-page slicing used when
    `pdftotext` is missing, and the cached availability probe. */
module PdfExtractor {
  import opened Wrappers
  import opened PhpStrings
  import opened QuizData
  import opened Hosts

  /** The heuristic page length of the fallback slicing. */
  const LinesPerPage: nat := 50

  /** PHP_INT_MAX on a 64-bit build. */
  const PhpIntMax: int := 0x7FFF_FFFF_FFFF_FFFF

  /** 2^1024 - 2^970: the least integer whose decimal text `strtod` rounds
      to infinity (halfway between the largest double and 2^1024). */
  const DoubleOverflow: int := 0xFFFFFFFFFFFFFC00_0000000000000000_0000000000000000_0000000000000000_0000000000000000_0000000000000000_0000000000000000_0000000000000000_0000000000000000_0000000000000000_0000000000000000_0000000000000000_0000000000000000_0000000000000000_0000000000000000_0000000000000000

  /** `(int)` applied to a string of decimal digits. A value beyond 64 bits
      is read as a double, which the cast caps at PHP_INT_MAX; a value too
      large for a double reads as infinity, which the cast turns into 0. */
  function PhpIntCast(digits: string): (v: int)
    requires AllDigits(digits)
    ensures 0 <= v <= PhpIntMax
    ensures DigitsValue(digits) <= PhpIntMax ==> v == DigitsValue(digits)
    ensures PhpIntMax < DigitsValue(digits) < DoubleOverflow ==> v == PhpIntMax
    ensures DigitsValue(digits) >= DoubleOverflow ==> v == 0
  {
    var d := DigitsValue(digits);
    if d >= DoubleOverflow then 0 else if d > PhpIntMax then PhpIntMax else d
  }

  // ---------------------------------------------------------------------
  // The page-range grammar `^(\d+)\s*-\s*(\d+)$`

  /** How many digits `s` holds from index `i` on. */
  function DigitRun(s: string, i: nat): (n: nat)
    requires i <= |s|
    ensures i + n <= |s|
    decreases |s| - i
  {
    if i < |s| && IsDigit(s[i]) then 1 + DigitRun(s, i + 1) else 0
  }

  /** The run is all digits and stops at a non-digit. */
  lemma {:induction false} DigitRunSpec(s: string, i: nat)
    requires i <= |s|
    ensures forall k :: i <= k < i + DigitRun(s, i) ==> IsDigit(s[k])
    ensures i + DigitRun(s, i) < |s| ==> !IsDigit(s[i + DigitRun(s, i)])
    decreases |s| - i
  {
    if i < |s| && IsDigit(s[i]) {
      DigitRunSpec(s, i + 1);
    }
  }

  /** How many `\s` characters `s` holds from index `i` on. */
  function SpaceRun(s: string, i: nat): (n: nat)
    requires i <= |s|
    ensures i + n <= |s|
    decreases |s| - i
  {
    if i < |s| && IsRegexSpace(s[i]) then 1 + SpaceRun(s, i + 1) else 0
  }

  /** The run is all `\s` and stops at a character that is not. */
  lemma {:induction false} SpaceRunSpec(s: string, i: nat)
    requires i <= |s|
    ensures forall k :: i <= k < i + SpaceRun(s, i) ==> IsRegexSpace(s[k])
    ensures i + SpaceRun(s, i) < |s| ==> !IsRegexSpace(s[i + SpaceRun(s, i)])
    decreases |s| - i
  {
    if i < |s| && IsRegexSpace(s[i]) {
      SpaceRunSpec(s, i + 1);
    }
  }

  /** A digit run from `i` that stops at `j` has length `j - i`. */
  lemma {:induction false} DigitRunStops(s: string, i: nat, j: nat)
    requires i <= j <= |s|
    requires forall k :: i <= k < j ==> IsDigit(s[k])
    requires j < |s| ==> !IsDigit(s[j])
    ensures DigitRun(s, i) == j - i
    decreases j - i
  {
    if i < j {
      DigitRunStops(s, i + 1, j);
    }
  }

  /** A `\s` run from `i` that stops at `j` has length `j - i`. */
  lemma {:induction false} SpaceRunStops(s: string, i: nat, j: nat)
    requires i <= j <= |s|
    requires forall k :: i <= k < j ==> IsRegexSpace(s[k])
    requires j < |s| ==> !IsRegexSpace(s[j])
    ensures SpaceRun(s, i) == j - i
    decreases j - i
  {
    if i < j {
      SpaceRunStops(s, i + 1, j);
    }
  }

  predicate AllSpaces(s: string) {
    forall k :: 0 <= k < |s| ==> IsRegexSpace(s[k])
  }

  /** Matches `(\d+)\s*-\s*(\d+)$` against `s` from index `i` on and returns
      the two digit groups. Both quantified groups are followed by characters
      they cannot match, so the greedy reading is the only one. The subject is
      always trimmed first, so `$` never meets a trailing newline. The test
      that the first group is all digits always holds (`DigitRunSpec`); it is
      written out so that the result carries it. */
  function RangeFrom(s: string, i: nat): (r: Option<(string, string)>)
    requires i <= |s|
    ensures r.Some? ==> r.value.0 != "" && AllDigits(r.value.0) && r.value.1 != "" && AllDigits(r.value.1)
  {
    var p := i + DigitRun(s, i);
    if p == i || !AllDigits(Substring(s, i, p)) then None
    else
      var q := p + SpaceRun(s, p);
      if q == |s| || s[q] != '-' then None
      else
        var e := q + 1 + SpaceRun(s, q + 1);
        if e < |s| && AllDigits(Substring(s, e, |s|)) then Some((Substring(s, i, p), Substring(s, e, |s|))) else None
  }

  /** `RangeFrom` once the four runs of a range are located: digits on
      `[i, p)`, `\s` on `[p, q)`, the dash at `q`, `\s` on `(q, e)` and digits
      from `e` to the end. */
  lemma {:induction false} RangeFromSplits(s: string, i: nat, p: nat, q: nat, e: nat)
    requires i < p <= q < e < |s|
    requires forall k :: i <= k < p ==> IsDigit(s[k])
    requires forall k :: p <= k < q ==> IsRegexSpace(s[k])
    requires s[q] == '-'
    requires forall k :: q < k < e ==> IsRegexSpace(s[k])
    requires forall k :: e <= k < |s| ==> IsDigit(s[k])
    ensures RangeFrom(s, i) == Some((Substring(s, i, p), Substring(s, e, |s|)))
  {
    DigitRunStops(s, i, p);
    SpaceRunStops(s, p, q);
    SpaceRunStops(s, q + 1, e);
  }

  /** A range written with decimal digits and optional spaces around the dash
      is recognised after any prefix, and its two numbers are the digit groups. */
  lemma {:induction false} RangeOfRendered(pre: string, a: string, sp1: string, sp2: string, b: string)
    requires a != "" && AllDigits(a) && b != "" && AllDigits(b)
    requires AllSpaces(sp1) && AllSpaces(sp2)
    ensures RangeFrom(pre + a + sp1 + "-" + sp2 + b, |pre|) == Some((a, b))
  {
    var s := pre + a + sp1 + "-" + sp2 + b;
    var i := |pre|;
    var p := i + |a|;
    var q := p + |sp1|;
    var e := q + 1 + |sp2|;
    assert forall k :: i <= k < p ==> s[k] == a[k - i];
    assert forall k :: p <= k < q ==> s[k] == sp1[k - p];
    assert s[q] == '-';
    assert forall k :: q < k < e ==> s[k] == sp2[k - q - 1];
    assert forall k :: e <= k < |s| ==> s[k] == b[k - e];
    RangeFromSplits(s, i, p, q, e);
    assert Substring(s, i, p) == a;
    assert Substring(s, e, |s|) == b;
  }

  /** The same without a prefix or spaces around the dash. */
  lemma {:induction false} RangeOfPlain(a: string, b: string)
    requires a != "" && AllDigits(a) && b != "" && AllDigits(b)
    ensures RangeFrom(a + "-" + b, 0) == Some((a, b))
  {
    var s := a + "-" + b;
    assert forall k :: 0 <= k < |a| ==> s[k] == a[k];
    assert forall k :: |a| < k < |s| ==> s[k] == b[k - |a| - 1];
    RangeFromSplits(s, 0, |a|, |a|, |a| + 1);
    assert Substring(s, 0, |a|) == a;
    assert Substring(s, |a| + 1, |s|) == b;
  }

  /** A character the range grammar can consume. */
  predicate RangeChar(c: char) {
    IsDigit(c) || IsRegexSpace(c) || c == '-'
  }

  /** From `i` on, a string the range grammar accepts consists of digits, `\s`
      and `-` only; in particular it holds no colon. */
  lemma {:induction false} RangeFromChars(s: string, i: nat)
    requires i <= |s| && RangeFrom(s, i).Some?
    ensures forall k :: i <= k < |s| ==> RangeChar(s[k])
  {
    var p := i + DigitRun(s, i);
    var q := p + SpaceRun(s, p);
    var e := q + 1 + SpaceRun(s, q + 1);
    DigitRunSpec(s, i);
    SpaceRunSpec(s, p);
    SpaceRunSpec(s, q + 1);
    forall k | e <= k < |s|
      ensures IsDigit(s[k])
    {
      assert s[k] == Substring(s, e, |s|)[k - e];
    }
  }

  /** `parse_page_range`: `{from, to}` for a well-formed range, `None` for a
      null, blank, malformed, zero-start or reversed one. */
  function ParsePageRange(rangestr: Option<string>): (r: Option<PageRange>)
    ensures r.Some? ==> ValidRange(r.value) && r.value.to <= PhpIntMax
    ensures (rangestr.None? || Trim(rangestr.value) == "") ==> r.None?
  {
    if rangestr.None? || rangestr.value == "" then None
    else
      var t := Trim(rangestr.value);
      if t == "" then None
      else
        match RangeFrom(t, 0)
        case None => None
        case Some((a, b)) =>
          var from := PhpIntCast(a);
          var to := PhpIntCast(b);
          if from >= 1 && to >= from then Some(PageRange(from, to)) else None
  }

  /** Round trip: for every valid range, `"{from}-{to}"`, with any spaces
      around the dash, parses back to exactly `{from, to}`. */
  lemma {:induction false} ParsePageRangeRoundTrip(from: int, to: int, sp1: string, sp2: string)
    requires 1 <= from <= to <= PhpIntMax
    requires AllSpaces(sp1) && AllSpaces(sp2)
    ensures ParsePageRange(Some(NatToString(from) + sp1 + "-" + sp2 + NatToString(to)))
            == Some(PageRange(from, to))
  {
    RenderedRange(NatToString(from), sp1, sp2, NatToString(to));
    DigitsValueOfNatToString(from);
    DigitsValueOfNatToString(to);
  }

  /** A rendered range is its own trimmed form and splits into its two numbers. */
  lemma {:induction false} RenderedRange(a: string, sp1: string, sp2: string, b: string)
    requires a != "" && AllDigits(a) && b != "" && AllDigits(b)
    requires AllSpaces(sp1) && AllSpaces(sp2)
    ensures var s := a + sp1 + "-" + sp2 + b;
      s != "" && Trim(s) == s && RangeFrom(s, 0) == Some((a, b))
  {
    var s := a + sp1 + "-" + sp2 + b;
    assert s[0] == a[0] && s[|s| - 1] == b[|b| - 1];
    TrimFixed(s);
    RangeOfRendered("", a, sp1, sp2, b);
    assert "" + a + sp1 + "-" + sp2 + b == s;
  }

  /** A range with no spaces parses to its two numbers exactly when the first
      is at least 1 and the second is not smaller. */
  lemma {:induction false} ParsePlain(a: string, b: string)
    requires a != "" && AllDigits(a) && b != "" && AllDigits(b)
    ensures ParsePageRange(Some(a + "-" + b))
            == (if PhpIntCast(a) >= 1 && PhpIntCast(b) >= PhpIntCast(a)
                then Some(PageRange(PhpIntCast(a), PhpIntCast(b))) else None)
  {
    PlainTrimmed(a, b);
    RangeOfPlain(a, b);
  }

  lemma {:induction false} PlainTrimmed(a: string, b: string)
    requires a != "" && AllDigits(a) && b != "" && AllDigits(b)
    ensures a + "-" + b != "" && Trim(a + "-" + b) == a + "-" + b
  {
    var s := a + "-" + b;
    assert s[0] == a[0] && s[|s| - 1] == b[|b| - 1];
    TrimFixed(s);
  }

  /** A range whose first number is zero is refused, whatever follows. */
  lemma {:induction false} ZeroStartRefused(zeros: string, to: nat)
    requires zeros != "" && forall k :: 0 <= k < |zeros| ==> zeros[k] == '0'
    ensures ParsePageRange(Some(zeros + "-" + NatToString(to))) == None
  {
    ZerosValue(zeros);
    ParsePlain(zeros, NatToString(to));
  }

  lemma {:induction false} ZerosValue(zeros: string)
    requires forall k :: 0 <= k < |zeros| ==> zeros[k] == '0'
    ensures AllDigits(zeros) && DigitsValue(zeros) == 0
  {
    if zeros != [] {
      ZerosValue(zeros[..|zeros| - 1]);
    }
  }

  /** A reversed range is refused. */
  lemma {:induction false} ReversedRefused(from: nat, to: nat)
    requires to < from <= PhpIntMax
    ensures ParsePageRange(Some(NatToString(from) + "-" + NatToString(to))) == None
  {
    DigitsValueOfNatToString(from);
    DigitsValueOfNatToString(to);
    ParsePlain(NatToString(from), NatToString(to));
  }

  /** An end page too large for a double casts to 0, below the start: the
      range is refused rather than capped. */
  lemma {:induction false} HugeEndRefused(b: string)
    requires b != "" && AllDigits(b) && DigitsValue(b) >= DoubleOverflow
    ensures ParsePageRange(Some("1-" + b)) == None
  {
    assert AllDigits("1") && DigitsValue("1") == 1;
    ParsePlain("1", b);
    assert "1" + "-" + b == "1-" + b;
  }

  // ---------------------------------------------------------------------
  // Extraction

  /** The `pdftotext` command line: page flags only when both bounds are given. */
  function PdftotextCommand(path: string, from: Option<int>, to: Option<int>): string {
    "pdftotext"
    + (if from.Some? && to.Some?
       then " -f " + EscapeShellArg(IntToString(from.value)) + " -t " + EscapeShellArg(IntToString(to.value))
       else "")
    + " " + EscapeShellArg(path) + " -"
  }

  /** `extract_with_pdftotext` builds its command a piece at a time. */
  method BuildPdftotextCommand(path: string, from: Option<int>, to: Option<int>) returns (command: string)
    ensures command == PdftotextCommand(path, from, to)
    ensures command[..13] == "pdftotext -f " <==> from.Some? && to.Some?
  {
    ghost var flags := "";
    command := "pdftotext";
    if from.Some? && to.Some? {
      command := command + " -f " + EscapeShellArg(IntToString(from.value));
      command := command + " -t " + EscapeShellArg(IntToString(to.value));
      flags := " -f " + EscapeShellArg(IntToString(from.value)) + " -t " + EscapeShellArg(IntToString(to.value));
    }
    assert command == "pdftotext" + flags;
    command := command + " " + EscapeShellArg(path) + " -";
    PageFlagsIff(path, from, to);
  }

  /** The page flags appear in the command exactly when both bounds are given. */
  lemma {:induction false} PageFlagsIff(path: string, from: Option<int>, to: Option<int>)
    ensures |PdftotextCommand(path, from, to)| >= 13
    ensures PdftotextCommand(path, from, to)[..13] == "pdftotext -f " <==> from.Some? && to.Some?
  {
    if from.Some? && to.Some? {
      WithFlags(path, from.value, to.value);
    } else {
      WithoutFlags(path, from, to);
    }
  }

  lemma {:induction false} WithFlags(path: string, from: int, to: int)
    ensures |PdftotextCommand(path, Some(from), Some(to))| >= 13
    ensures PdftotextCommand(path, Some(from), Some(to))[..13] == "pdftotext -f "
  {
    var rest := EscapeShellArg(IntToString(from)) + " -t " + EscapeShellArg(IntToString(to))
                + " " + EscapeShellArg(path) + " -";
    assert PdftotextCommand(path, Some(from), Some(to)) == "pdftotext -f " + rest;
  }

  lemma {:induction false} WithoutFlags(path: string, from: Option<int>, to: Option<int>)
    requires !(from.Some? && to.Some?)
    ensures |PdftotextCommand(path, from, to)| >= 13
    ensures PdftotextCommand(path, from, to)[..13] != "pdftotext -f "
  {
    var c := PdftotextCommand(path, from, to);
    assert c == "pdftotext" + " " + EscapeShellArg(path) + " -";
    assert c[10] == '\'';
  }

  /** `extract_with_pdftotext`: a nonzero exit fails with `pdftotext_failed`,
      output that is blank after trimming fails with `pdf_empty`. */
  function ExtractWithPdftotext(host: Host, path: string, from: Option<int>, to: Option<int>)
    : (r: Result<string, Error>)
    ensures var out := host.exec(PdftotextCommand(path, from, to));
      && (out.exitCode != 0 <==> r.Failure? && r.error.PdftotextFailed?)
      && (r.Success? ==> r.value == Implode(out.lines, "\n") && Trim(r.value) != "")
      && (r.Failure? && !r.error.PdftotextFailed? ==> r.error == PdfEmpty)
      && (out.exitCode == 0 && Trim(Implode(out.lines, "\n")) != "" ==> r == Success(Implode(out.lines, "\n")))
  {
    var out := host.exec(PdftotextCommand(path, from, to));
    if out.exitCode != 0 then Failure(PdftotextFailed("Exit code: " + IntToString(out.exitCode)))
    else
      var text := Implode(out.lines, "\n");
      if Trim(text) == "" then Failure(PdfEmpty) else Success(text)
  }

  /** The first capture of `\((.*?)\)` in `s` and the text after its `)`. */
  function NextGroup(s: string): (r: Option<(string, string)>)
    ensures r.Some? ==> |r.value.1| < |s| && ')' !in r.value.0
  {
    var i := IndexFrom(s, '(', 0);
    if i == |s| then None
    else
      var j := IndexFrom(s, ')', i + 1);
      IndexFromSpec(s, ')', i + 1);
      if j == |s| then None
      else
        Some((s[i + 1..j], s[j + 1..]))
  }

  /** The captures of `preg_match_all('/\((.*?)\)/s', s)`: from each `(`, the
      shortest run up to the next `)`. */
  function ParenGroups(s: string): (gs: seq<string>)
    decreases |s|
  {
    match NextGroup(s)
    case None => []
    case Some((g, rest)) => [g] + ParenGroups(rest)
  }

  /** Text made of `(g)` groups, with any `(`-free filler before each, yields
      exactly those groups. */
  lemma {:induction false} ParenGroupsOfGroups(fillers: seq<string>, groups: seq<string>)
    requires |fillers| == |groups|
    requires forall k :: 0 <= k < |groups| ==> ')' !in groups[k] && '(' !in fillers[k]
    ensures ParenGroups(Wrapped(fillers, groups)) == groups
  {
    if groups != [] {
      ParenGroupsOfGroups(fillers[1..], groups[1..]);
      ParenGroupsStep(fillers[0], groups[0], Wrapped(fillers[1..], groups[1..]));
      assert [groups[0]] + groups[1..] == groups;
    }
  }

  /** One `(g)` group after `(`-free filler. */
  lemma {:induction false} ParenGroupsStep(f: string, g: string, rest: string)
    requires '(' !in f && ')' !in g
    ensures ParenGroups(f + "(" + g + ")" + rest) == [g] + ParenGroups(rest)
  {
    var s := f + "(" + g + ")" + rest;
    var i, j := |f|, |f| + 1 + |g|;
    assert forall m :: 0 <= m < i ==> s[m] == f[m];
    assert forall m :: i + 1 <= m < j ==> s[m] == g[m - i - 1];
    IndexFromFinds(s, '(', 0, i);
    IndexFromFinds(s, ')', i + 1, j);
    assert s[i + 1..j] == g;
    assert s[j + 1..] == rest;
    assert NextGroup(s) == Some((g, rest));
  }

  function Wrapped(fillers: seq<string>, groups: seq<string>): string
    requires |fillers| == |groups|
  {
    if groups == [] then "" else fillers[0] + "(" + groups[0] + ")" + Wrapped(fillers[1..], groups[1..])
  }

  /** `extract_all_pages`: `pdftotext` over the whole file when available;
      otherwise the `(...)` groups of the raw file joined by spaces, failing
      when that is empty in PHP's sense. */
  function ExtractAllPages(host: Host, path: string): (r: Result<string, Error>)
    ensures PdftotextAvailable(host) ==> r == ExtractWithPdftotext(host, path, None, None)
    ensures !PdftotextAvailable(host) ==>
      var text := Implode(ParenGroups(host.readFile(path).GetOr("")), " ");
      (r.Success? <==> !PhpEmpty(text)) && (r.Success? ==> r.value == text)
  {
    if PdftotextAvailable(host) then ExtractWithPdftotext(host, path, None, None)
    else
      // file_get_contents returning false reads as the empty string here
      var content := host.readFile(path).GetOr("");
      var text := Implode(ParenGroups(content), " ");
      if PhpEmpty(text) then Failure(PdfExtractionFailed("pdftotext not available and fallback failed"))
      else Success(text)
  }

  /** `array_slice($lines, ($from-1)*50, $to*50 - ($from-1)*50)`. */
  function PageSlice(lines: seq<string>, from: int, to: int): (r: seq<string>)
    requires 1 <= from <= to
    ensures var lo := if (from - 1) * LinesPerPage < |lines| then (from - 1) * LinesPerPage else |lines|;
            var hi := if to * LinesPerPage < |lines| then to * LinesPerPage else |lines|;
            lo <= hi && |r| == hi - lo && forall k :: 0 <= k < |r| ==> r[k] == lines[lo + k]
    ensures |r| <= (to - from + 1) * LinesPerPage
  {
    var start := (from - 1) * LinesPerPage;
    var end := to * LinesPerPage;
    var lo := if start < |lines| then start else |lines|;
    var hi := if end < |lines| then end else |lines|;
    seq(hi - lo, k requires 0 <= k < hi - lo => lines[lo + k])
  }

  /** `extract_pages`: nothing is read from a missing file, and a page range
      that starts below 1 or is reversed never yields text. */
  function ExtractPages(host: Host, path: string, from: Option<int>, to: Option<int>)
    : (r: Result<string, Error>)
    ensures r.Success? ==> host.fileExists(path)
    ensures r.Success? && from.Some? && to.Some? ==> 1 <= from.value <= to.value
    ensures host.fileExists(path) && from.Some? && to.Some? && (from.value < 1 || to.value < from.value)
            ==> r.Failure? && r.error.InvalidPageRange?
  {
    if !host.fileExists(path) then Failure(PdfNotFound(path))
    else if from.None? || to.None? then ExtractAllPages(host, path)
    else if from.value < 1 || to.value < from.value then
      Failure(InvalidPageRange("Pages " + IntToString(from.value) + "-" + IntToString(to.value)))
    else if PdftotextAvailable(host) then ExtractWithPdftotext(host, path, from, to)
    else
      match ExtractAllPages(host, path)
      case Failure(e) => Failure(e)
      case Success(all) =>
        Success(Implode(PageSlice(Explode(all, '\n'), from.value, to.value), "\n"))
  }

  /** A missing file fails first; without both bounds the whole text is
      extracted; a range is refused exactly when it starts below 1 or is
      reversed; a valid range goes to `pdftotext` when it is installed. */
  lemma {:induction false} ExtractPagesCases(host: Host, path: string, from: Option<int>, to: Option<int>)
    ensures !host.fileExists(path) ==> ExtractPages(host, path, from, to) == Failure(PdfNotFound(path))
    ensures host.fileExists(path) && (from.None? || to.None?) ==>
      ExtractPages(host, path, from, to) == ExtractAllPages(host, path)
    ensures host.fileExists(path) && from.Some? && to.Some? ==>
      (ExtractPages(host, path, from, to).Failure? && ExtractPages(host, path, from, to).error.InvalidPageRange?
       <==> from.value < 1 || to.value < from.value)
    ensures host.fileExists(path) && from.Some? && to.Some? && 1 <= from.value <= to.value && PdftotextAvailable(host) ==>
      ExtractPages(host, path, from, to) == ExtractWithPdftotext(host, path, from, to)
  {
  }

  /** Without `pdftotext`, a page range yields exactly the lines with indices in
      [(from-1)*50, to*50) of the full text, so at most (to-from+1)*50 lines. */
  lemma {:induction false} FallbackSlice(host: Host, path: string, from: int, to: int)
    requires host.fileExists(path) && !PdftotextAvailable(host) && 1 <= from <= to
    requires ExtractAllPages(host, path).Success?
    ensures var r := ExtractPages(host, path, Some(from), Some(to));
      var lines := Explode(ExtractAllPages(host, path).value, '\n');
      var lo := if (from - 1) * LinesPerPage < |lines| then (from - 1) * LinesPerPage else |lines|;
      var hi := if to * LinesPerPage < |lines| then to * LinesPerPage else |lines|;
      && r.Success?
      && (lo < hi ==> Explode(r.value, '\n') == lines[lo..hi])
      && |Explode(r.value, '\n')| <= (to - from + 1) * LinesPerPage
  {
    var lines := Explode(ExtractAllPages(host, path).value, '\n');
    var slice := PageSlice(lines, from, to);
    if slice != [] {
      ExplodePartsNoSep(ExtractAllPages(host, path).value, '\n', 0);
      ExplodeImplode(slice, '\n');
    } else {
      assert Explode(Implode(slice, "\n"), '\n') == [""];
    }
  }

  /** The `static $available` cache of `is_pdftotext_available`: the probe
      runs on the first call only; later calls return the cached answer. */
  class PdftotextProbe {
    var cached: Option<bool>
    var probesRun: nat

    constructor ()
      ensures cached == None && probesRun == 0
    {
      cached := None;
      probesRun := 0;
    }

    method IsAvailable(host: Host) returns (available: bool)
      modifies this
      ensures old(cached).Some? ==>
        available == old(cached).value && cached == old(cached) && probesRun == old(probesRun)
      ensures old(cached).None? ==>
        available == PdftotextAvailable(host) && cached == Some(available) && probesRun == old(probesRun) + 1
    {
      if cached.None? {
        var out := host.exec(WhichPdftotext);
        cached := Some(out.exitCode == 0);
        probesRun := probesRun + 1;
      }
      available := cached.value;
    }
  }

  /** Two calls in one process: one probe, and the second call answers from the
      cache even when the world has changed in between. */
  method ProbeTwice(before: Host, after: Host) returns (first: bool, second: bool, probes: nat)
    ensures first == second == PdftotextAvailable(before)
    ensures probes == 1
  {
    var probe := new PdftotextProbe();
    first := probe.IsAvailable(before);
    second := probe.IsAvailable(after);
    probes := probe.probesRun;
  }
}
