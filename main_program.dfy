/** main.go: the first revision of the checker. Its link pattern only
    accepts URLs that start with `./` or `../`, its heading rule takes
    everything after the first space of any line starting with `#`, and its
    main loop classifies links like check.go, with an empty file list
    treated as a usage error. */
module MainProgram {
  import opened Results
  import opened Strings
  import opened Fences
  import opened Matching
  import FileSystem
  import Links
  import Anchors
  import opened Validation
  import opened Sequences

  // ---------------------------------------------------------------------------
  // extractRelativeLinks (main.go:167-220): `\]\((\.\.?/[^)]*)\)`
  // ---------------------------------------------------------------------------

  predicate IsRelativeUrl(url: string) {
    HasPrefix(url, "./") || HasPrefix(url, "../")
  }

  /** A match from `s` to `e`; the captured URL is `line[s + 2..e - 1]`. */
  predicate IsRelMatch(line: string, s: nat, e: nat) {
    && s + 3 <= e <= |line|
    && line[s] == ']' && line[s + 1] == '(' && line[e - 1] == ')'
    && IsRelativeUrl(line[s + 2..e - 1]) && ')' !in line[s + 2..e - 1]
  }

  /** The end of the match starting at `i`, if any: the capture runs to the
      first `)`, and it must begin with `./` or `../`. */
  function RelMatchAt(line: string, i: nat): (r: Option<nat>)
    ensures r.Some? ==> i + 3 <= r.value <= |line|
  {
    if i + 2 <= |line| && line[i] == ']' && line[i + 1] == '(' then
      var rest := line[i + 2..];
      match IndexWhere(rest, Links.IsCloseParen)
      case Some(k) => if IsRelativeUrl(rest[..k]) then Some(i + 3 + k) else None
      case None => None
    else None
  }

  /** Every match RelMatchAt reports is a match of the pattern. */
  lemma RelMatchSound(line: string, i: nat)
    ensures RelMatchAt(line, i).Some? ==> IsRelMatch(line, i, RelMatchAt(line, i).value)
  {
    if RelMatchAt(line, i).Some? {
      var rest := line[i + 2..];
      var k := IndexWhere(rest, Links.IsCloseParen).value;
      assert forall j :: 0 <= j < |rest| ==> rest[j] == line[i + 2 + j];
      assert line[i + 2..i + 2 + k] == rest[..k];
    }
  }

  /** A match of the pattern at `i` is the one RelMatchAt reports. */
  lemma RelMatchComplete(line: string, i: nat, e: nat)
    requires IsRelMatch(line, i, e)
    ensures RelMatchAt(line, i) == Some(e)
  {
    var rest := line[i + 2..];
    var k := e - 1 - (i + 2);
    var url := line[i + 2..e - 1];
    assert rest[k] == line[e - 1];
    assert forall j :: 0 <= j < k ==> rest[j] == url[j];
    FirstWhere(rest, Links.IsCloseParen, k);
    assert rest[..k] == url;
  }

  function RelMatches(line: string): (r: seq<(nat, nat)>)
    ensures forall k :: 0 <= k < |r| ==> r[k].0 + 3 <= r[k].1 <= |line|
  {
    var at := (i: nat) => RelMatchAt(line, i);
    FindAll(at, |line|, 0)
  }

  /** Every match found is a match of the pattern. */
  lemma RelMatchesSound(line: string)
    ensures var r := RelMatches(line);
      forall k :: 0 <= k < |r| ==> IsRelMatch(line, r[k].0, r[k].1)
  {
    var r := RelMatches(line);
    forall k | 0 <= k < |r| ensures IsRelMatch(line, r[k].0, r[k].1) {
      RelMatchSound(line, r[k].0);
    }
  }

  predicate IsOpenParen(c: char) {
    c == '('
  }

  /** The link of one match (main.go:202-211): the capture, with the column
      computed as main.go does, from the last `(` before the capture. */
  function MatchRef(line: string, n: nat, m: (nat, nat)): RawLink
    requires m.0 + 3 <= m.1 <= |line|
  {
    var (start, end) := (m.0 + 2, m.1 - 1);
    var urlStartInMarkdown := match LastIndexWhere(line[..start], IsOpenParen)
      case Some(p) => p + 1
      case None => 0;
    RawLink(line[start..end], n, urlStartInMarkdown + 1)
  }

  /** The column main.go computes is that of the character after `](`, so
      the link fits the line as RefFromLine says. */
  lemma MatchRefShape(line: string, n: nat, m: (nat, nat))
    requires IsRelMatch(line, m.0, m.1)
    ensures var l := MatchRef(line, n, m);
      RefFromLine(line, n, l) && IsRelativeUrl(l.url) && l.col == m.0 + 3
  {
    var before := line[..m.0 + 2];
    assert before[|before| - 1] == '(';
    assert LastIndexWhere(before, IsOpenParen) == Some(m.0 + 1);
  }

  /** The links of line `n`, one per match, left to right. */
  function LineRefs(line: string, n: nat): seq<RawLink> {
    var ms := RelMatches(line);
    seq(|ms|, k requires 0 <= k < |ms| => MatchRef(line, n, ms[k]))
  }

  /** Every link of a line fits it and starts with `./` or `../`. */
  lemma LineRefsShape(line: string, n: nat)
    ensures var r := LineRefs(line, n);
      forall k :: 0 <= k < |r| ==> RefFromLine(line, n, r[k]) && IsRelativeUrl(r[k].url)
  {
    var ms := RelMatches(line);
    RelMatchesSound(line);
    forall k | 0 <= k < |LineRefs(line, n)|
      ensures RefFromLine(line, n, LineRefs(line, n)[k]) && IsRelativeUrl(LineRefs(line, n)[k].url)
    {
      MatchRefShape(line, n, ms[k]);
    }
  }

  lemma LineRefsAt(line: string, n: nat, k: nat)
    requires k < |RelMatches(line)|
    ensures |LineRefs(line, n)| == |RelMatches(line)|
    ensures LineRefs(line, n)[k] == MatchRef(line, n, RelMatches(line)[k])
  {
  }

  /** A URL such as `.foo` is not matched here, though check.go's pattern
      takes it. */
  lemma DotNameNotMatched()
    ensures RelMatchAt("](.foo)", 0).None?
    ensures Links.SimpleMatchAt("](.foo)", 0) == Some(7)
  {
    var line := "](.foo)";
    assert line[0..2] == "](" && line[0..3] == "](.";
    assert line[2..][4] == ')';
    assert line[3..][3] == ')';
    assert line[2..][..4] == ".foo";
    assert ".foo"[..2] == ".f" && ".f"[1] != "./"[1];
    assert ".foo"[..3] == ".fo" && ".fo"[1] != "../"[1];
  }

  function ExtractResult(entry: FileSystem.Entry): Outcome<seq<RawLink>, FileSystem.FsError> {
    match FileSystem.ReadLines(entry)
    case Err(e) => Err(e)
    case Ok(lines) => Ok(OutsideConcat(lines, LineRefs))
  }

  /** Every link extractRelativeLinks returns lies on a line outside fences,
      fits that line and starts with `./` or `../`. */
  lemma ExtractRefsOrigin(lines: seq<string>, k: nat)
    requires k < |OutsideConcat(lines, LineRefs)|
    ensures var l := OutsideConcat(lines, LineRefs)[k];
      && 1 <= l.line <= |lines| && OutsideFence(lines, l.line - 1)
      && RefFromLine(lines[l.line - 1], l.line, l) && IsRelativeUrl(l.url)
  {
    var i, j := OutsideConcatOrigin(lines, LineRefs, k);
    LineRefsShape(lines[i], i + 1);
  }

  /** The inner loop of extractRelativeLinks (main.go:198-212). */
  method MatchedLinks(line: string, lineNumber: nat) returns (links: seq<RawLink>)
    ensures links == LineRefs(line, lineNumber)
  {
    var matches := RelMatches(line);
    ghost var refs := LineRefs(line, lineNumber);
    assert |refs| == |matches|;
    links := [];
    for j := 0 to |matches|
      invariant links == refs[..j]
    {
      LineRefsAt(line, lineNumber, j);
      var link := MatchRef(line, lineNumber, matches[j]);
      PrefixStep(refs, j);
      links := links + [link];
    }
    assert refs[..|matches|] == refs;
  }

  /** extractRelativeLinks (main.go:170-220). */
  method ExtractRelativeLinks(entry: FileSystem.Entry) returns (r: Outcome<seq<RawLink>, FileSystem.FsError>)
    ensures r == ExtractResult(entry)
  {
    var read := FileSystem.ReadLines(entry);
    if read.Err? {
      return Err(read.error);
    }
    var lines := read.value;
    var links: seq<RawLink> := [];
    var inCodeBlock := false;
    var lineNumber := 0;
    while lineNumber < |lines|
      invariant 0 <= lineNumber <= |lines|
      invariant inCodeBlock <==> FenceCount(lines[..lineNumber]) % 2 == 1
      invariant links == OutsideConcat(lines[..lineNumber], LineRefs)
    {
      OutsideConcatStep(lines, LineRefs, lineNumber);
      ParityStep(FenceCount(lines[..lineNumber]));
      lineNumber := lineNumber + 1;
      var line := lines[lineNumber - 1];
      if HasPrefix(line, "```") {
        inCodeBlock := !inCodeBlock;
        continue;
      }
      if inCodeBlock {
        continue;
      }
      var found := MatchedLinks(line, lineNumber);
      links := links + found;
    }
    assert lines[..|lines|] == lines;
    return Ok(links);
  }

  // ---------------------------------------------------------------------------
  // getMarkdownAnchors (main.go:232-298)
  // ---------------------------------------------------------------------------

  predicate IsSpaceChar(c: char) {
    c == ' '
  }

  /** The base slug of a line: a line starting with `#` and holding a space
      is a heading whose text is everything after the first space, trimmed. */
  function HeadingBase(line: string): Option<string> {
    if HasPrefix(line, "#") then
      match IndexWhere(line, IsSpaceChar)
      case None => None
      case Some(i) => Some(Anchors.GenerateAnchor(TrimSpace(line[i + 1..])))
    else None
  }

  /** A line is a heading exactly when it starts with `#` and holds a
      space. */
  lemma HeadingBaseExactly(line: string)
    ensures HeadingBase(line).Some? <==> HasPrefix(line, "#") && ' ' in line
  {
    if HasPrefix(line, "#") {
      var r := IndexWhere(line, IsSpaceChar);
      if ' ' in line {
        var i :| 0 <= i < |line| && line[i] == ' ';
        assert IsSpaceChar(line[i]);
      }
      if r.Some? {
        assert line[r.value] == ' ';
      }
    }
  }

  /** The heading text is what follows the first space. */
  lemma HeadingBaseShape(head: string, rest: string)
    requires HasPrefix(head, "#") && ' ' !in head
    ensures HeadingBase(head + " " + rest) == Some(Anchors.GenerateAnchor(TrimSpace(rest)))
  {
    var line := head + " " + rest;
    assert line[..|head|] == head && line[..1] == head[..1];
    assert IsSpaceChar(line[|head|]);
    assert forall j :: 0 <= j < |head| ==> line[j] == head[j];
    assert IndexWhere(line, IsSpaceChar) == Some(|head|);
    assert line[|head| + 1..] == rest;
  }

  /** Unlike the `^#{1,6} ` rule of anchor.go, seven hashes still make a
      heading here. */
  lemma SevenHashesIsHeading(rest: string)
    ensures HeadingBase(Anchors.Hashes(7) + " " + rest) == Some(Anchors.GenerateAnchor(TrimSpace(rest)))
  {
    var h := Anchors.Hashes(7);
    assert h[..1] == "#";
    assert ' ' !in h;
    HeadingBaseShape(h, rest);
  }

  /** anchor.go's rule rejects the same line. */
  lemma SevenHashesNotAtx(rest: string)
    ensures Anchors.HeadingBase(Anchors.Hashes(7) + " " + rest).None?
  {
    var h := Anchors.Hashes(7);
    Anchors.AtxHeadingShape(7, " " + rest);
    assert h + " " + rest == h + (" " + rest);
  }

  function HeadingBases(line: string, lineNumber: nat): seq<string> {
    match HeadingBase(line)
    case Some(base) => [base]
    case None => []
  }

  /** HeadingBases unfolded for one line, as the loop of GetMarkdownAnchors
      computes it. */
  lemma HeadingBasesOfLine(line: string, lineNumber: nat)
    ensures HeadingBases(line, lineNumber) ==
      if HasPrefix(line, "#") && IndexWhere(line, IsSpaceChar).Some?
      then [Anchors.GenerateAnchor(TrimSpace(line[IndexWhere(line, IsSpaceChar).value + 1..]))] else []
  {
  }

  function AnchorsSpec(lines: seq<string>): seq<string> {
    Anchors.Disambiguate(OutsideConcat(lines, HeadingBases))
  }

  function AnchorsResult(entry: FileSystem.Entry): Outcome<seq<string>, FileSystem.FsError> {
    match FileSystem.ReadLines(entry)
    case Err(e) => Err(e)
    case Ok(lines) => Ok(AnchorsSpec(lines))
  }

  /** getMarkdownAnchors emits one anchor per heading line outside fences,
      each disambiguated by the earlier headings with the same slug. */
  lemma AnchorsSpecCorrect(lines: seq<string>, k: nat) returns (i: nat)
    requires k < |AnchorsSpec(lines)|
    ensures var bases := OutsideConcat(lines, HeadingBases);
      |AnchorsSpec(lines)| == |bases| &&
      AnchorsSpec(lines)[k] == Anchors.Suffixed(bases[k], Anchors.Occurrences(bases[..k], bases[k]))
    ensures i < |lines| && OutsideFence(lines, i)
    ensures HeadingBase(lines[i]) == Some(OutsideConcat(lines, HeadingBases)[k])
  {
    var bases := OutsideConcat(lines, HeadingBases);
    Anchors.DisambiguateAt(bases, k);
    var j;
    i, j := OutsideConcatOrigin(lines, HeadingBases, k);
  }

  /** Conversely, every heading line outside fences yields an anchor: the
      one after the anchors of the lines before it, made from its own base
      slug. */
  lemma AnchorsSpecComplete(lines: seq<string>, i: nat)
    requires i < |lines| && OutsideFence(lines, i) && HeadingBase(lines[i]).Some?
    ensures var bases := OutsideConcat(lines, HeadingBases);
      var k := |OutsideConcat(lines[..i], HeadingBases)|;
      k < |AnchorsSpec(lines)| && |AnchorsSpec(lines)| == |bases| &&
      bases[k] == HeadingBase(lines[i]).value &&
      AnchorsSpec(lines)[k] == Anchors.Suffixed(bases[k], Anchors.Occurrences(bases[..k], bases[k]))
  {
    OutsideConcatAt(lines, HeadingBases, i, 0);
    Anchors.DisambiguateAt(OutsideConcat(lines, HeadingBases), |OutsideConcat(lines[..i], HeadingBases)|);
  }

  /** The heading step of getMarkdownAnchors' loop (main.go:259-289): a line
      starting with `#` and holding a space records its slug; any other line
      changes nothing. Either way the anchors and the counter stay in step
      with the bases. */
  method HeadingLine(anchors: seq<string>, anchorCount: map<string, nat>, line: string,
                     ghost lineNumber: nat, ghost bases: seq<string>)
    returns (anchors': seq<string>, anchorCount': map<string, nat>)
    requires anchors == Anchors.Disambiguate(bases) && Anchors.Tracks(anchorCount, bases)
    ensures anchors' == Anchors.Disambiguate(bases + HeadingBases(line, lineNumber))
    ensures Anchors.Tracks(anchorCount', bases + HeadingBases(line, lineNumber))
  {
    HeadingBasesOfLine(line, lineNumber);
    anchors', anchorCount' := anchors, anchorCount;
    if HasPrefix(line, "#") {
      var space := IndexWhere(line, IsSpaceChar);
      if space.None? {
        assert bases + HeadingBases(line, lineNumber) == bases;
        return;
      }
      var heading := TrimSpace(line[space.value + 1..]);
      var anchor := Anchors.GenerateAnchor(heading);
      Anchors.RecordStep(anchors, anchorCount, bases, anchor);
      anchors', anchorCount' := Anchors.Record(anchors, anchorCount, anchor).0, Anchors.Record(anchors, anchorCount, anchor).1;
    } else {
      assert bases + HeadingBases(line, lineNumber) == bases;
    }
  }

  /** getMarkdownAnchors (main.go:232-298). */
  method GetMarkdownAnchors(entry: FileSystem.Entry) returns (r: Outcome<seq<string>, FileSystem.FsError>)
    ensures r == AnchorsResult(entry)
  {
    var read := FileSystem.ReadLines(entry);
    if read.Err? {
      return Err(read.error);
    }
    var lines := read.value;
    var anchors: seq<string> := [];
    var inCodeBlock := false;
    var anchorCount: map<string, nat> := map[];
    ghost var bases: seq<string> := [];
    for n := 0 to |lines|
      invariant inCodeBlock <==> FenceCount(lines[..n]) % 2 == 1
      invariant bases == OutsideConcat(lines[..n], HeadingBases)
      invariant anchors == Anchors.Disambiguate(bases) && Anchors.Tracks(anchorCount, bases)
    {
      var line := lines[n];
      OutsideConcatCases(lines, HeadingBases, n);
      if HasPrefix(line, "```") {
        inCodeBlock := !inCodeBlock;
        continue;
      }
      if inCodeBlock {
        continue;
      }
      anchors, anchorCount := HeadingLine(anchors, anchorCount, line, n + 1, bases);
      bases := bases + HeadingBases(line, n + 1);
    }
    assert lines[..|lines|] == lines;
    return Ok(anchors);
  }

  // ---------------------------------------------------------------------------
  // main (main.go:33-157)
  // ---------------------------------------------------------------------------

  /** The link loop of one file (main.go:78-127). */
  method CheckLinks(env: Env, dir: string, links: seq<RawLink>) returns (brokenLinksFound: bool, validLinksCount: nat)
    ensures brokenLinksFound == AnyBroken(env, dir, links, AnchorsResult)
    ensures validLinksCount == CountValid(env, dir, links, AnchorsResult)
  {
    brokenLinksFound := false;
    validLinksCount := 0;
    for k := 0 to |links|
      invariant brokenLinksFound == AnyBroken(env, dir, links[..k], AnchorsResult)
      invariant validLinksCount == CountValid(env, dir, links[..k], AnchorsResult)
    {
      assert links[..k + 1][..k] == links[..k];
      var link := links[k];
      var (linkPath, linkAnchor) := Links.SplitLinkAndAnchor(link.url);
      var decodedLink := env.unescape(linkPath);
      if decodedLink.None? {
        continue;
      }
      var fullPath := env.join(dir, decodedLink.value);
      if !FileSystem.Exists(env.fs, fullPath) {
        brokenLinksFound := true;
      } else if linkAnchor != "" {
        var anchors := GetMarkdownAnchors(FileSystem.Lookup(env.fs, fullPath));
        if anchors.Err? {
          continue;
        }
        var found := Anchors.Contains(anchors.value, linkAnchor);
        if !found {
          brokenLinksFound := true;
        } else {
          validLinksCount := validLinksCount + 1;
        }
      } else {
        validLinksCount := validLinksCount + 1;
      }
    }
    assert links[..|links|] == links;
  }

  /** The exit code of main for the files left after flag parsing: 1 for an
      empty list (the usage message), else 1 exactly when a file fails. */
  method CheckFiles(env: Env, files: seq<string>) returns (exitCode: int)
    ensures |files| == 0 ==> exitCode == 1
    ensures |files| > 0 ==> exitCode == ExitCode(env, files, ExtractResult, AnchorsResult)
  {
    if |files| == 0 {
      return 1;
    }
    exitCode := 0;
    for i := 0 to |files|
      invariant exitCode == ExitCode(env, files[..i], ExtractResult, AnchorsResult)
    {
      assert files[..i + 1][..i] == files[..i];
      var file := files[i];
      if !FileSystem.Exists(env.fs, file) {
        exitCode := 1;
        continue;
      }
      var dir := env.dir(file);
      var links := ExtractRelativeLinks(FileSystem.Lookup(env.fs, file));
      if links.Err? {
        exitCode := 1;
        continue;
      }
      if |links.value| == 0 {
        continue;
      }
      var brokenLinksFound, validLinksCount := CheckLinks(env, dir, links.value);
      if brokenLinksFound {
        exitCode := 1;
      }
    }
    assert files[..|files|] == files;
  }
}
