/** internal/check/check.go: the older checker. Its link extractor uses the
    pattern of link.go, its anchor extractor is anchor.go's Extract with
    GenerateAnchor written inline, and RelativeLinksAndAnchors classifies
    every link and folds the classes into an exit code. */
module Check {
  import opened Results
  import opened Strings
  import opened Fences
  import FileSystem
  import Links
  import Anchors
  import opened Validation
  import opened Sequences

  // ---------------------------------------------------------------------------
  // extractRelativeLinks (check.go:155-206)
  // ---------------------------------------------------------------------------

  /** The links of line `n`, one per match of `\]\(\.[^)]*\)`. */
  function LineRefs(line: string, n: nat): seq<RawLink> {
    var ms := Links.SimpleMatches(line);
    seq(|ms|, k requires 0 <= k < |ms| => RawLink(line[ms[k].0 + 2..ms[k].1 - 1], n, ms[k].0 + 3))
  }

  /** check.go finds, line by line, the same links (URL, line and column) as
      link.go's Extract. */
  lemma LineRefsAgree(line: string, n: nat)
    ensures |LineRefs(line, n)| == |Links.LineLinks(line, n)|
    ensures forall k :: 0 <= k < |LineRefs(line, n)| ==>
      var l := Links.LineLinks(line, n)[k];
      LineRefs(line, n)[k] == RawLink(l.url, l.line, l.column)
  {
    forall k | 0 <= k < |LineRefs(line, n)|
      ensures var l := Links.LineLinks(line, n)[k]; LineRefs(line, n)[k] == RawLink(l.url, l.line, l.column)
    {
      Links.LineLinksAt(line, n, k);
    }
  }

  /** Every link sits right after `](` at its 1-based column, starts with
      `.` and is closed by the first `)` after it. */
  lemma LineRefsShape(line: string, n: nat, k: nat)
    requires k < |LineRefs(line, n)|
    ensures var l := LineRefs(line, n)[k];
      RefFromLine(line, n, l) && |l.url| > 0 && l.url[0] == '.'
  {
    var ms := Links.SimpleMatches(line);
    Links.SimpleMatchesSound(line);
    LineRefsAt(line, n, k);
    MatchRefShape(line, n, ms[k].0, ms[k].1);
  }

  /** The link of one match satisfies RefFromLine. */
  lemma MatchRefShape(line: string, n: nat, s: nat, e: nat)
    requires Links.IsSimpleMatch(line, s, e)
    ensures var url := line[s + 2..e - 1];
      RefFromLine(line, n, RawLink(url, n, s + 3)) && |url| > 0 && url[0] == '.'
  {
    var url := line[s + 2..e - 1];
    assert url[0] == line[s + 2];
    assert ')' !in url by {
      forall j | 0 <= j < |url| ensures url[j] != ')' { assert url[j] == line[s + 2 + j]; }
    }
  }

  /** The k-th link of a line is built from the k-th match. */
  lemma LineRefsAt(line: string, n: nat, k: nat)
    requires k < |Links.SimpleMatches(line)|
    ensures var m := Links.SimpleMatches(line)[k];
      |LineRefs(line, n)| == |Links.SimpleMatches(line)| &&
      LineRefs(line, n)[k] == RawLink(line[m.0 + 2..m.1 - 1], n, m.0 + 3)
  {
  }

  /** What extractRelativeLinks returns for a file system entry. */
  function ExtractResult(entry: FileSystem.Entry): Outcome<seq<RawLink>, FileSystem.FsError> {
    match FileSystem.ReadLines(entry)
    case Err(e) => Err(e)
    case Ok(lines) => Ok(OutsideConcat(lines, LineRefs))
  }

  /** The inner loop of extractRelativeLinks (check.go:186-198). */
  method MatchedLinks(line: string, lineNumber: nat) returns (links: seq<RawLink>)
    ensures links == LineRefs(line, lineNumber)
  {
    var matches := Links.SimpleMatches(line);
    ghost var refs := LineRefs(line, lineNumber);
    assert |refs| == |matches|;
    links := [];
    for j := 0 to |matches|
      invariant links == refs[..j]
    {
      var (start, end) := matches[j];
      var url := line[start + 2..end - 1];
      var colPosition := start + 2;
      LineRefsAt(line, lineNumber, j);
      var link := RawLink(url, lineNumber, colPosition + 1);
      assert link == refs[j];
      PrefixStep(refs, j);
      links := links + [link];
    }
    assert refs[..|matches|] == refs;
  }

  /** extractRelativeLinks (check.go:155-206). */
  method ExtractRelativeLinks(entry: FileSystem.Entry) returns (r: Outcome<seq<RawLink>, FileSystem.FsError>)
    ensures r == ExtractResult(entry)
  {
    var read := FileSystem.ReadLines(entry);
    if read.Err? {
      return Err(read.error);
    }
    var lines := read.value;
    var links: seq<RawLink> := [];
    var inCodeBlock := false;
    var lineNumber := 0;
    while lineNumber < |lines|
      invariant 0 <= lineNumber <= |lines|
      invariant inCodeBlock <==> FenceCount(lines[..lineNumber]) % 2 == 1
      invariant links == OutsideConcat(lines[..lineNumber], LineRefs)
    {
      OutsideConcatStep(lines, LineRefs, lineNumber);
      ParityStep(FenceCount(lines[..lineNumber]));
      lineNumber := lineNumber + 1;
      var line := lines[lineNumber - 1];
      if HasPrefix(line, "```") {
        inCodeBlock := !inCodeBlock;
        continue;
      }
      if inCodeBlock {
        continue;
      }
      var found := MatchedLinks(line, lineNumber);
      links := links + found;
    }
    assert lines[..|lines|] == lines;
    return Ok(links);
  }

  // ---------------------------------------------------------------------------
  // getLineContent (check.go:290-308; main.go:301-319 differs only in its
  // error text)
  // ---------------------------------------------------------------------------

  datatype LineError = OpenError | LineNotFound(lineNumber: int)

  /** The `lineNumber`-th line (1-based), counting the lines the scanner
      delivers; a read error ends the count without being reported. */
  method GetLineContent(entry: FileSystem.Entry, lineNumber: int) returns (r: Outcome<string, LineError>)
    ensures entry.Missing? || entry.Unreadable? ==> r == Err(OpenError)
    ensures entry.Directory? ==> r == Err(LineNotFound(lineNumber))
    ensures entry.Regular? && 1 <= lineNumber <= |entry.lines| ==> r == Ok(entry.lines[lineNumber - 1])
    ensures entry.Regular? && !(1 <= lineNumber <= |entry.lines|) ==> r == Err(LineNotFound(lineNumber))
  {
    if entry.Missing? || entry.Unreadable? {
      return Err(OpenError);
    }
    var lines := if entry.Regular? then entry.lines else [];
    var currentLine := 0;
    while currentLine < |lines|
      invariant 0 <= currentLine <= |lines|
      invariant !(1 <= lineNumber <= currentLine)
    {
      currentLine := currentLine + 1;
      if currentLine == lineNumber {
        return Ok(lines[currentLine - 1]);
      }
    }
    return Err(LineNotFound(lineNumber));
  }

  // ---------------------------------------------------------------------------
  // RelativeLinksAndAnchors (check.go:24-149)
  // ---------------------------------------------------------------------------

  /** The link loop of one file (check.go:65-118): whether a broken link was
      found, and how many links are valid. */
  method CheckLinks(env: Env, dir: string, links: seq<RawLink>) returns (brokenLinksFound: bool, validLinksCount: nat)
    ensures brokenLinksFound == AnyBroken(env, dir, links, Anchors.ExtractResult)
    ensures validLinksCount == CountValid(env, dir, links, Anchors.ExtractResult)
  {
    brokenLinksFound := false;
    validLinksCount := 0;
    for k := 0 to |links|
      invariant brokenLinksFound == AnyBroken(env, dir, links[..k], Anchors.ExtractResult)
      invariant validLinksCount == CountValid(env, dir, links[..k], Anchors.ExtractResult)
    {
      assert links[..k + 1][..k] == links[..k];
      var link := links[k];
      var (linkPath, linkAnchor) := Links.SplitLinkAndAnchor(link.url);
      var decodedLink := env.unescape(linkPath);
      if decodedLink.None? {
        continue;
      }
      var fullPath := env.join(dir, decodedLink.value);
      if !FileSystem.Exists(env.fs, fullPath) {
        brokenLinksFound := true;
      } else if linkAnchor != "" {
        var anchors := Anchors.Extract(FileSystem.Lookup(env.fs, fullPath));
        if anchors.Err? {
          continue;
        }
        var found := Anchors.Contains(anchors.value, linkAnchor);
        if !found {
          brokenLinksFound := true;
        } else {
          validLinksCount := validLinksCount + 1;
        }
      } else {
        validLinksCount := validLinksCount + 1;
      }
    }
    assert links[..|links|] == links;
  }

  /** RelativeLinksAndAnchors: the exit code of checking `files`. */
  method RelativeLinksAndAnchors(env: Env, files: seq<string>) returns (exitCode: int)
    ensures exitCode == ExitCode(env, files, ExtractResult, Anchors.ExtractResult)
  {
    exitCode := 0;
    for i := 0 to |files|
      invariant exitCode == ExitCode(env, files[..i], ExtractResult, Anchors.ExtractResult)
    {
      assert files[..i + 1][..i] == files[..i];
      var file := files[i];
      if !FileSystem.Exists(env.fs, file) {
        exitCode := 1;
        continue;
      }
      var dir := env.dir(file);
      var links := ExtractRelativeLinks(FileSystem.Lookup(env.fs, file));
      if links.Err? {
        exitCode := 1;
        continue;
      }
      if |links.value| == 0 {
        continue;
      }
      var brokenLinksFound, validLinksCount := CheckLinks(env, dir, links.value);
      if brokenLinksFound {
        exitCode := 1;
      }
    }
    assert files[..|files|] == files;
  }
}
