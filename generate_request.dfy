/** The request-handling logic of the quiz generation page: the per-file
    page-range text (`name: a-b` lines), the website list, the
    percentage-to-count conversion and the document lists handed to
    `create_quiz`. */
module GenerateRequest {
  import opened Wrappers
  import opened PhpStrings
  import opened QuizData
  import opened PdfExtractor

  // ---------------------------------------------------------------------
  // The line grammar `^(.+?):\s*(\d+)\s*-\s*(\d+)$`

  /** What may follow the colon, from index `i` of the line on:
      `\s*(\d+)\s*-\s*(\d+)` up to the end. */
  predicate TailMatches(line: string, i: nat)
    requires i <= |line|
  {
    RangeFrom(line, i + SpaceRun(line, i)).Some?
  }

  /** A colon at `j` can end the lazily matched name: the rest matches. */
  predicate ColonAt(line: string, j: nat) {
    j < |line| && line[j] == ':' && TailMatches(line, j + 1)
  }

  /** What follows the colon holds no colon, so the only colon that can end the
      name is the last one. */
  lemma {:induction false} TailHasNoColon(line: string, i: nat)
    requires i <= |line| && TailMatches(line, i)
    ensures forall m :: i <= m < |line| ==> line[m] != ':'
  {
    SpaceRunSpec(line, i);
    RangeFromChars(line, i + SpaceRun(line, i));
  }

  /** The three groups of a matching line: the raw name and the two digit runs.
      The name ends at the last colon, which must not be the first character. */
  function MatchLine(line: string): (r: Option<(string, string, string)>)
    ensures r.Some? ==> 1 <= |r.value.0| < |line| && AllDigits(r.value.1) && AllDigits(r.value.2)
  {
    var after := AfterLast(line, ':', |line|);
    if after < 2 || !TailMatches(line, after) then None
    else
      var groups := RangeFrom(line, after + SpaceRun(line, after)).value;
      Some((Substring(line, 0, after - 1), groups.0, groups.1))
  }

  /** `MatchLine` is the lazy regex: whenever some colon from index 1 on is
      followed by a range, the name ends at the first such colon. */
  lemma {:induction false} LazyNameEndsAtColon(line: string, j: nat)
    requires 1 <= j && ColonAt(line, j)
    ensures MatchLine(line).Some? && |MatchLine(line).value.0| == j
    ensures forall i :: 1 <= i < j ==> !ColonAt(line, i)
  {
    ColonAtIsLast(line, j);
    forall i | 1 <= i < j
      ensures !ColonAt(line, i)
    {
      NoEarlierColon(line, i, j);
    }
  }

  lemma {:induction false} ColonAtIsLast(line: string, j: nat)
    requires ColonAt(line, j)
    ensures AfterLast(line, ':', |line|) == j + 1
  {
    TailHasNoColon(line, j + 1);
  }

  lemma {:induction false} NoEarlierColon(line: string, i: nat, j: nat)
    requires i < j && ColonAt(line, j)
    ensures !ColonAt(line, i)
  {
    if ColonAt(line, i) {
      TailHasNoColon(line, i + 1);
    }
  }

  /** What one input line stores: the trimmed name and a valid range, or
      nothing for a blank, non-matching or invalid line. */
  function Entry(rawLine: string): (e: Option<(string, PageRange)>)
    ensures e.Some? ==> ValidRange(e.value.1) && e.value.1.to <= PhpIntMax
  {
    var line := Trim(rawLine);
    if PhpEmpty(line) then None
    else
      match MatchLine(line)
      case None => None
      case Some((name, a, b)) =>
        var from := PhpIntCast(a);
        var to := PhpIntCast(b);
        if from >= 1 && to >= from then Some((Trim(name), PageRange(from, to))) else None
  }

  /** The entries of the lines, one per line. */
  function Entries(lines: seq<string>): (es: seq<Option<(string, PageRange)>>)
    ensures |es| == |lines|
  {
    seq(|lines|, k requires 0 <= k < |lines| => Entry(lines[k]))
  }

  /** The map after storing the entries in order, each overwriting any
      earlier one for the same name. */
  function Fold(entries: seq<Option<(string, PageRange)>>): map<string, PageRange> {
    if entries == [] then map[]
    else
      var previous := Fold(entries[..|entries| - 1]);
      match entries[|entries| - 1]
      case None => previous
      case Some((name, range)) => previous[name := range]
  }

  /** Folding one more entry stores it, if it is there, over the earlier map. */
  lemma {:induction false} FoldSnoc(entries: seq<Option<(string, PageRange)>>, i: nat)
    requires i < |entries|
    ensures Fold(entries[..i + 1]) ==
      match entries[i]
      case None => Fold(entries[..i])
      case Some((name, range)) => Fold(entries[..i])[name := range]
  {
    assert entries[..i + 1][..i] == entries[..i];
  }

  /** What `parse_page_ranges_input` returns for `input`. */
  function PageRangesInput(input: string): (r: map<string, PageRange>)
  {
    if PhpEmpty(Trim(input)) then map[] else Fold(Entries(Explode(input, '\n')))
  }

  /** Input made only of trim characters gives no ranges at all. */
  lemma {:induction false} BlankInput(input: string)
    requires forall k :: 0 <= k < |input| ==> IsTrimChar(input[k])
    ensures PageRangesInput(input) == map[]
  {
    TrimSpec(input);
  }

  /** `parse_page_ranges_input`: walks the lines and fills the map. */
  method ParsePageRangesInput(input: string) returns (ranges: map<string, PageRange>)
    ensures ranges == PageRangesInput(input)
  {
    ranges := map[];
    if PhpEmpty(Trim(input)) {
      return;
    }
    var lines := Explode(input, '\n');
    ghost var entries := Entries(lines);
    var i := 0;
    while i < |lines|
      invariant 0 <= i <= |lines|
      invariant ranges == Fold(entries[..i])
    {
      FoldSnoc(entries, i);
      assert entries[i] == Entry(lines[i]);
      var line := Trim(lines[i]);
      if !PhpEmpty(line) {
        var matches := MatchLine(line);
        if matches.Some? {
          var from := PhpIntCast(matches.value.1);
          var to := PhpIntCast(matches.value.2);
          if from >= 1 && to >= from {
            ranges := ranges[Trim(matches.value.0) := PageRange(from, to)];
          }
        }
      }
      i := i + 1;
    }
    assert entries[..|lines|] == entries;
  }

  /** The entry stores a range under `name`. */
  predicate Stores(entry: Option<(string, PageRange)>, name: string) {
    entry.Some? && entry.value.0 == name
  }

  /** A name is in the map exactly when some entry stores it, and its range is
      the one of the last entry that does. */
  lemma {:induction false} FoldLastWins(entries: seq<Option<(string, PageRange)>>, name: string)
    ensures name in Fold(entries) <==> exists i :: 0 <= i < |entries| && Stores(entries[i], name)
    ensures name in Fold(entries) ==>
      exists i :: 0 <= i < |entries| && Stores(entries[i], name) &&
        entries[i].value.1 == Fold(entries)[name] &&
        forall j :: i < j < |entries| ==> !Stores(entries[j], name)
  {
    if entries != [] {
      var init, last := entries[..|entries| - 1], entries[|entries| - 1];
      FoldLastWins(init, name);
      assert forall i :: 0 <= i < |init| ==> init[i] == entries[i];
      if Stores(last, name) {
        assert entries[|entries| - 1].value.1 == Fold(entries)[name];
      } else {
        assert name in Fold(entries) <==> name in Fold(init);
        if name in Fold(init) {
          assert Fold(entries)[name] == Fold(init)[name];
        }
      }
    }
  }

  /** Every range in the map was stored by some entry. */
  lemma {:induction false} FoldValues(entries: seq<Option<(string, PageRange)>>, name: string)
    requires name in Fold(entries)
    ensures exists i :: 0 <= i < |entries| && entries[i] == Some((name, Fold(entries)[name]))
  {
    FoldLastWins(entries, name);
  }

  /** Every stored range is valid: `from >= 1` and `to >= from`. */
  lemma {:induction false} StoredRangesValid(input: string, name: string)
    requires name in PageRangesInput(input)
    ensures ValidRange(PageRangesInput(input)[name])
  {
    var lines := Explode(input, '\n');
    FoldValues(Entries(lines), name);
  }

  /** The map for the lines of `input`: a name is present exactly when some
      line stores it, with the range of the last such line. */
  lemma {:induction false} PageRangesInputLastWins(input: string, lines: seq<string>, name: string)
    requires !PhpEmpty(Trim(input)) && lines == Explode(input, '\n')
    ensures name in PageRangesInput(input) <==>
      exists i :: 0 <= i < |lines| && Stores(Entry(lines[i]), name)
    ensures name in PageRangesInput(input) ==>
      exists i :: 0 <= i < |lines| && Entry(lines[i]) == Some((name, PageRangesInput(input)[name])) &&
        forall j :: i < j < |lines| ==> !Stores(Entry(lines[j]), name)
  {
    var entries := Entries(lines);
    assert PageRangesInput(input) == Fold(entries);
    FoldLastWins(entries, name);
    if name in Fold(entries) {
      var i :| 0 <= i < |entries| && Stores(entries[i], name) &&
        entries[i].value.1 == Fold(entries)[name] &&
        forall j :: i < j < |entries| ==> !Stores(entries[j], name);
      assert entries[i] == Entry(lines[i]);
      forall j | i < j < |lines|
        ensures !Stores(Entry(lines[j]), name)
      {
        assert entries[j] == Entry(lines[j]);
      }
    } else {
      forall i | 0 <= i < |lines|
        ensures !Stores(Entry(lines[i]), name)
      {
        assert entries[i] == Entry(lines[i]);
      }
    }
  }

  /** Round trip: a single line `name:{from}-{to}` with a plain name, and any
      spaces after the colon and around the dash, gives exactly the map from
      `name` to `{from, to}`. */
  lemma {:induction false} LineRoundTrip(name: string, sp: string, sp1: string, sp2: string, from: nat, to: nat)
    requires name != "" && !IsTrimChar(name[0]) && !IsTrimChar(name[|name| - 1])
    requires '\n' !in name
    requires AllSpaces(sp) && AllSpaces(sp1) && AllSpaces(sp2)
    requires '\n' !in sp && '\n' !in sp1 && '\n' !in sp2
    requires 1 <= from <= to <= PhpIntMax
    ensures PageRangesInput(name + ":" + sp + NatToString(from) + sp1 + "-" + sp2 + NatToString(to))
            == map[name := PageRange(from, to)]
  {
    RenderedLineEntry(name, sp, sp1, sp2, from, to);
    var line := name + ":" + sp + NatToString(from) + sp1 + "-" + sp2 + NatToString(to);
    SingleLine(line, name, PageRange(from, to));
  }

  /** The rendered line is its own trimmed form and stores `name` with `{from, to}`. */
  lemma {:induction false} RenderedLineEntry(name: string, sp: string, sp1: string, sp2: string, from: nat, to: nat)
    requires name != "" && !IsTrimChar(name[0]) && !IsTrimChar(name[|name| - 1])
    requires '\n' !in name
    requires AllSpaces(sp) && AllSpaces(sp1) && AllSpaces(sp2)
    requires '\n' !in sp && '\n' !in sp1 && '\n' !in sp2
    requires 1 <= from <= to <= PhpIntMax
    ensures var line := name + ":" + sp + NatToString(from) + sp1 + "-" + sp2 + NatToString(to);
      '\n' !in line && Trim(line) == line && !PhpEmpty(line) && Entry(line) == Some((name, PageRange(from, to)))
  {
    var a, b := NatToString(from), NatToString(to);
    var line := name + ":" + sp + a + sp1 + "-" + sp2 + b;
    LineEnds(name, sp, a, sp1, sp2, b);
    TrimFixed(line);
    LineMatches(name, sp, a, sp1, sp2, b);
    TrimFixed(name);
    DigitsValueOfNatToString(from);
    DigitsValueOfNatToString(to);
  }

  /** The rendered line splits into the name and the two digit runs. */
  lemma {:induction false} LineMatches(name: string, sp: string, a: string, sp1: string, sp2: string, b: string)
    requires name != ""
    requires AllSpaces(sp) && AllSpaces(sp1) && AllSpaces(sp2)
    requires a != "" && AllDigits(a) && b != "" && AllDigits(b)
    ensures MatchLine(name + ":" + sp + a + sp1 + "-" + sp2 + b) == Some((name, a, b))
  {
    var pre := name + ":" + sp;
    var line := pre + a + sp1 + "-" + sp2 + b;
    assert line == name + ":" + sp + a + sp1 + "-" + sp2 + b;
    LineHead(name, sp, a, sp1, sp2, b);
    RangeOfRendered(pre, a, sp1, sp2, b);
    MatchLineOf(line, name, a, b);
  }

  /** A single trimmed, non-empty line gives the map of its one entry. */
  lemma {:induction false} SingleLine(line: string, name: string, range: PageRange)
    requires '\n' !in line && Trim(line) == line && !PhpEmpty(line)
    requires Entry(line) == Some((name, range))
    ensures PageRangesInput(line) == map[name := range]
  {
    ExplodeNoSep(line, '\n');
    var entries := Entries([line]);
    assert entries == [Some((name, range))];
    assert entries[..0] == [];
    assert Fold(entries) == map[name := range];
    assert PageRangesInput(line) == Fold(entries);
  }

  /** The rendered line starts with the name, ends with a digit and holds no
      newline. */
  lemma {:induction false} LineEnds(name: string, sp: string, a: string, sp1: string, sp2: string, b: string)
    requires name != "" && '\n' !in name && '\n' !in sp && '\n' !in sp1 && '\n' !in sp2
    requires a != "" && AllDigits(a) && b != "" && AllDigits(b)
    ensures var line := name + ":" + sp + a + sp1 + "-" + sp2 + b;
      line[0] == name[0] && IsDigit(line[|line| - 1]) && '\n' !in line && !PhpEmpty(line)
  {
    var line := name + ":" + sp + a + sp1 + "-" + sp2 + b;
    assert '\n' !in a && '\n' !in b;
    assert line[|line| - 1] == b[|b| - 1];
    assert line[0] == name[0];
  }

  /** The rendered line holds `name`, the colon, and then exactly the spaces
      `sp` before the first digit. */
  lemma {:induction false} LineHead(name: string, sp: string, a: string, sp1: string, sp2: string, b: string)
    requires AllSpaces(sp) && a != "" && AllDigits(a)
    ensures var line := name + ":" + sp + a + sp1 + "-" + sp2 + b;
      line[|name|] == ':' && Substring(line, 0, |name|) == name && SpaceRun(line, |name| + 1) == |sp|
  {
    var line := name + ":" + sp + a + sp1 + "-" + sp2 + b;
    var j := |name| + 1;
    assert line[|name|] == ':';
    assert Substring(line, 0, |name|) == name;
    assert forall k :: j <= k < j + |sp| ==> line[k] == sp[k - j];
    assert line[j + |sp|] == a[0];
    SpaceRunStops(line, j, j + |sp|);
  }

  /** A line whose colon after `name` is followed by the range `a-b` splits
      into those three groups. */
  lemma {:induction false} MatchLineOf(line: string, name: string, a: string, b: string)
    requires 1 <= |name| && ColonAt(line, |name|) && Substring(line, 0, |name|) == name
    requires RangeFrom(line, |name| + 1 + SpaceRun(line, |name| + 1)) == Some((a, b))
    ensures MatchLine(line) == Some((name, a, b))
  {
    ColonAtIsLast(line, |name|);
  }

  // ---------------------------------------------------------------------
  // The website list

  /** A trimmed line is kept when it is non-empty and a valid URL. */
  predicate KeepUrl(isUrl: string -> bool, url: string) {
    !PhpEmpty(url) && isUrl(url)
  }

  /** The URL a line contributes: the line trimmed, when it is kept. */
  function UrlOf(isUrl: string -> bool, line: string): Option<string> {
    var url := Trim(line);
    if KeepUrl(isUrl, url) then Some(url) else None
  }

  /** `UrlOf` as a function of the line. */
  function UrlFn(isUrl: string -> bool): string -> Option<string> {
    line => UrlOf(isUrl, line)
  }

  /** The website URLs collected from the `websites` text. */
  function WebsiteUrls(websites: string, isUrl: string -> bool): seq<string> {
    if PhpEmpty(websites) then []
    else
      var lines := Explode(websites, '\n');
      Kept(UrlFn(isUrl), lines, |lines|)
  }

  /** The website loop: `filter_var(..., FILTER_VALIDATE_URL)` is `isUrl`. */
  method FilterWebsiteUrls(websites: string, isUrl: string -> bool) returns (urls: seq<string>)
    ensures urls == WebsiteUrls(websites, isUrl)
  {
    urls := [];
    if PhpEmpty(websites) {
      return;
    }
    var lines := Explode(websites, '\n');
    urls := CollectUrls(lines, isUrl);
  }

  /** One line of the list: trimmed, and kept when it is non-empty and a valid URL. */
  method UrlStep(line: string, isUrl: string -> bool) returns (url: Option<string>)
    ensures url == UrlOf(isUrl, line)
  {
    var trimmed := Trim(line);
    if !PhpEmpty(trimmed) && isUrl(trimmed) {
      return Some(trimmed);
    }
    return None;
  }

  /** The loop over the lines. */
  method CollectUrls(lines: seq<string>, isUrl: string -> bool) returns (urls: seq<string>)
    ensures urls == Kept(UrlFn(isUrl), lines, |lines|)
  {
    urls := [];
    for i := 0 to |lines|
      invariant urls == Kept(UrlFn(isUrl), lines, i)
    {
      var url := UrlStep(lines[i], isUrl);
      if url.Some? {
        urls := urls + [url.value];
      }
    }
  }

  /** The website list holds exactly the kept URLs some line trims to, and
      only kept URLs. */
  lemma {:induction false} WebsiteUrlsMembership(websites: string, isUrl: string -> bool, url: string)
    requires !PhpEmpty(websites)
    ensures url in WebsiteUrls(websites, isUrl) <==>
      KeepUrl(isUrl, url) && exists line :: line in Explode(websites, '\n') && Trim(line) == url
  {
    UrlsMembership(Explode(websites, '\n'), isUrl, url);
  }

  lemma {:induction false} UrlsMembership(lines: seq<string>, isUrl: string -> bool, url: string)
    ensures url in Kept(UrlFn(isUrl), lines, |lines|) <==>
      KeepUrl(isUrl, url) && exists line :: line in lines && Trim(line) == url
  {
    KeptMembers(UrlFn(isUrl), lines, |lines|);
    if url in Kept(UrlFn(isUrl), lines, |lines|) {
      var k :| 0 <= k < |lines| && UrlFn(isUrl)(lines[k]) == Some(url);
      assert lines[k] in lines && Trim(lines[k]) == url;
    }
    if exists line :: line in lines && Trim(line) == url {
      var line :| line in lines && Trim(line) == url;
      var k :| 0 <= k < |lines| && lines[k] == line;
      if KeepUrl(isUrl, url) {
        assert UrlFn(isUrl)(lines[k]) == Some(url);
      }
    }
  }

  /** A later line never moves an earlier URL: the list keeps the input order. */
  lemma {:induction false} WebsiteUrlsInOrder(lines: seq<string>, m: nat, n: nat, isUrl: string -> bool)
    requires m <= n <= |lines|
    ensures Kept(UrlFn(isUrl), lines, m) <= Kept(UrlFn(isUrl), lines, n)
  {
    KeptPrefix(UrlFn(isUrl), lines, m, n);
  }

  // ---------------------------------------------------------------------
  // Percentages to counts

  /** Rounding a share of at most the whole of `total` stays within `[0, total]`. */
  lemma {:induction false} RoundedShareBounded(pct: int, total: int)
    requires 0 <= pct <= 100 && total >= 0
    ensures 0 <= RoundHalfAway(pct * total, 100) <= total
  {
    var r := RoundHalfAway(pct * total, 100);
    assert pct * total <= 100 * total;
    assert 200 * r - 100 <= 2 * pct * total <= 200 * total;
  }

  /** The conversion as written (generate.php, lines 169-172): easy and medium
      are rounded shares and hard takes whatever is left. */
  function PercentCounts(total: int, easyPct: int, mediumPct: int): (mix: Mix)
    ensures MixTotal(mix) == total
    ensures mix.easy == RoundHalfAway(easyPct * total, 100)
    ensures mix.medium == RoundHalfAway(mediumPct * total, 100)
  {
    var easy := RoundHalfAway(easyPct * total, 100);
    var medium := RoundHalfAway(mediumPct * total, 100);
    Mix(easy, medium, total - easy - medium)
  }

  /** The two roundings can together exceed the total: 50%/50%/0% of one
      question gives easy 1, medium 1 and hard -1. */
  lemma {:induction false} PercentCountsNegativeHard()
    ensures PercentCounts(1, 50, 50) == Mix(1, 1, -1)
  {
    assert RoundHalfAway(50, 100) == 1;
  }

  /** The intended conversion: medium is capped at what easy leaves over, so
      hard is never negative. */
  function PercentCountsClamped(total: int, easyPct: int, mediumPct: int): (mix: Mix)
    requires total >= 0 && 0 <= easyPct && 0 <= mediumPct && easyPct + mediumPct <= 100
    ensures MixTotal(mix) == total
    ensures 0 <= mix.easy && 0 <= mix.medium && 0 <= mix.hard
    ensures mix.easy == RoundHalfAway(easyPct * total, 100)
  {
    var easy := RoundHalfAway(easyPct * total, 100);
    var medium := RoundHalfAway(mediumPct * total, 100);
    RoundedShareBounded(easyPct, total);
    RoundedShareBounded(mediumPct, total);
    var cappedMedium := if medium <= total - easy then medium else total - easy;
    Mix(easy, cappedMedium, total - easy - cappedMedium)
  }

  /** The correction changes nothing where the written conversion already
      gave a non-negative hard count. */
  lemma {:induction false} ClampedAgrees(total: int, easyPct: int, mediumPct: int)
    requires total >= 0 && 0 <= easyPct && 0 <= mediumPct && easyPct + mediumPct <= 100
    requires PercentCounts(total, easyPct, mediumPct).hard >= 0
    ensures PercentCountsClamped(total, easyPct, mediumPct) == PercentCounts(total, easyPct, mediumPct)
  {
  }

  // ---------------------------------------------------------------------
  // The document lists

  /** The documents of one file area: one per file, at `tempdir/filename`,
      with the range given for that exact file name. */
  function DocumentsOf(filenames: seq<string>, ranges: map<string, PageRange>, tempdir: string): (docs: seq<Document>)
    ensures |docs| == |filenames|
  {
    if filenames == [] then []
    else
      var name := filenames[|filenames| - 1];
      DocumentsOf(filenames[..|filenames| - 1], ranges, tempdir)
      + [Document(tempdir + "/" + name, if name in ranges then Some(ranges[name]) else None)]
  }

  /** The loop over a draft area: `empty($draftitemid)` skips it, otherwise
      each file is copied to the temporary directory and listed with its
      range; the temporary paths are returned for cleanup. */
  method CollectDocuments(draftItemId: int, areaFiles: int -> seq<string>,
                          ranges: map<string, PageRange>, tempdir: string)
    returns (docs: seq<Document>, tempfiles: seq<string>)
    ensures draftItemId == 0 ==> docs == [] && tempfiles == []
    ensures draftItemId != 0 ==> docs == DocumentsOf(areaFiles(draftItemId), ranges, tempdir)
    ensures |tempfiles| == |docs| && forall k :: 0 <= k < |docs| ==> tempfiles[k] == docs[k].path
  {
    docs, tempfiles := [], [];
    if draftItemId == 0 {
      return;
    }
    var files := areaFiles(draftItemId);
    var i := 0;
    while i < |files|
      invariant 0 <= i <= |files|
      invariant docs == DocumentsOf(files[..i], ranges, tempdir)
      invariant |tempfiles| == |docs| && forall k :: 0 <= k < |docs| ==> tempfiles[k] == docs[k].path
    {
      assert files[..i + 1][..i] == files[..i];
      var filename := files[i];
      var tempfile := tempdir + "/" + filename;
      tempfiles := tempfiles + [tempfile];
      var pagerange := if filename in ranges then Some(ranges[filename]) else None;
      docs := docs + [Document(tempfile, pagerange)];
      i := i + 1;
    }
    assert files[..|files|] == files;
  }

  /** Each listed document carries the range of its own file name, or none. */
  lemma {:induction false} DocumentsOfRanges(filenames: seq<string>, ranges: map<string, PageRange>, tempdir: string, k: nat)
    requires k < |filenames|
    ensures DocumentsOf(filenames, ranges, tempdir)[k].path == tempdir + "/" + filenames[k]
    ensures DocumentsOf(filenames, ranges, tempdir)[k].pageRange.Some? <==> filenames[k] in ranges
    ensures filenames[k] in ranges ==>
      DocumentsOf(filenames, ranges, tempdir)[k].pageRange.value == ranges[filenames[k]]
  {
    if k < |filenames| - 1 {
      var init := filenames[..|filenames| - 1];
      DocumentsOfRanges(init, ranges, tempdir, k);
      assert init[k] == filenames[k];
    }
  }
}
