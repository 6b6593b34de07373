/** internal/markdown/link/link.go: the path/fragment splitter, the link
    pattern `\]\(\.[^)]*\)` (shared with internal/check/check.go), the line
    loop of Extract and the URL-decoding wrapper. */
module Links {
  import opened Results
  import opened Strings
  import opened Fences
  import opened Matching
  import FileSystem
  import opened Sequences

  /** link.Link; `isValid` is never set by Extract. */
  datatype Link = Link(url: string, line: nat, column: nat, path: string, anchor: string, isValid: bool)

  // ---------------------------------------------------------------------------
  // SplitLinkAndAnchor (link.go:84-91; identical in check.go and main.go)
  // ---------------------------------------------------------------------------

  predicate IsHash(c: char) {
    c == '#'
  }

  /** `strings.SplitN(s, "#", 2)`: the part before the first `#` and the part
      after it, or `(s, "")` when there is no `#`. */
  function SplitLinkAndAnchor(s: string): (string, string) {
    match IndexWhere(s, IsHash)
    case None => (s, "")
    case Some(i) => (s[..i], s[i + 1..])
  }

  /** Without `#` the whole URL is the path; otherwise the path holds no `#`
      and path, `#` and anchor make up the URL again. */
  lemma SplitLinkAndAnchorShape(s: string)
    ensures var r := SplitLinkAndAnchor(s);
      && ('#' !in s ==> r == (s, ""))
      && ('#' in s ==> '#' !in r.0 && r.0 + "#" + r.1 == s)
  {
    match IndexWhere(s, IsHash)
    case None =>
    case Some(i) =>
      assert s == s[..i] + "#" + s[i + 1..];
  }

  /** Splitting undoes joining a `#`-free path and any anchor; the anchor
      may itself contain `#`. */
  lemma SplitJoin(path: string, anchor: string)
    requires '#' !in path
    ensures SplitLinkAndAnchor(path + "#" + anchor) == (path, anchor)
  {
    var s := path + "#" + anchor;
    assert IsHash(s[|path|]);
    assert forall j :: 0 <= j < |path| ==> s[j] == path[j];
    assert IndexWhere(s, IsHash) == Some(|path|);
    assert s[..|path|] == path && s[|path| + 1..] == anchor;
  }

  /** A link that is only a fragment keeps an empty path. */
  lemma SplitFragmentOnly()
    ensures SplitLinkAndAnchor("#sec") == ("", "sec")
  {
    SplitJoin("", "sec");
    assert "" + "#" + "sec" == "#sec";
  }

  // ---------------------------------------------------------------------------
  // The pattern `\]\(\.[^)]*\)`
  // ---------------------------------------------------------------------------

  predicate IsCloseParen(c: char) {
    c == ')'
  }

  /** A match from `s` to `e`: `](.`, then no `)`, then `)`. */
  predicate IsSimpleMatch(line: string, s: nat, e: nat) {
    && s + 4 <= e <= |line|
    && line[s] == ']' && line[s + 1] == '(' && line[s + 2] == '.'
    && line[e - 1] == ')'
    && forall k :: s + 3 <= k < e - 1 ==> line[k] != ')'
  }

  /** The end of the match of `\]\(\.[^)]*\)` that starts at `i`, if any: the
      greedy `[^)]*` stops at the first `)`, which closes the match. */
  function SimpleMatchAt(line: string, i: nat): (r: Option<nat>)
    ensures r.Some? ==> i + 4 <= r.value <= |line|
  {
    if i + 3 <= |line| && line[i] == ']' && line[i + 1] == '(' && line[i + 2] == '.' then
      match IndexWhere(line[i + 3..], IsCloseParen)
      case Some(k) => Some(i + 4 + k)
      case None => None
    else None
  }

  /** Every match SimpleMatchAt reports is a match of the pattern. */
  lemma SimpleMatchSound(line: string, i: nat)
    ensures SimpleMatchAt(line, i).Some? ==> IsSimpleMatch(line, i, SimpleMatchAt(line, i).value)
  {
    if SimpleMatchAt(line, i).Some? {
      var rest := line[i + 3..];
      assert forall j :: 0 <= j < |rest| ==> rest[j] == line[i + 3 + j];
    }
  }

  /** A match of the pattern at `i` is the one SimpleMatchAt reports. */
  lemma SimpleMatchComplete(line: string, i: nat, e: nat)
    requires IsSimpleMatch(line, i, e)
    ensures SimpleMatchAt(line, i) == Some(e)
  {
    var rest := line[i + 3..];
    var k := e - 1 - (i + 3);
    assert rest[k] == line[e - 1];
    assert forall j :: 0 <= j < k ==> rest[j] == line[i + 3 + j];
    FirstWhere(rest, IsCloseParen, k);
  }

  /** Matches of `\]\(\.[^)]*\)` in `line`, as `FindAllStringIndex` finds them. */
  function SimpleMatches(line: string): (r: seq<(nat, nat)>)
    ensures forall k :: 0 <= k < |r| ==> r[k].0 + 4 <= r[k].1 <= |line|
  {
    var at := (i: nat) => SimpleMatchAt(line, i);
    FindAll(at, |line|, 0)
  }

  /** Every match found is a match of the pattern. */
  lemma SimpleMatchesSound(line: string)
    ensures var r := SimpleMatches(line);
      forall k :: 0 <= k < |r| ==> IsSimpleMatch(line, r[k].0, r[k].1)
  {
    var r := SimpleMatches(line);
    forall k | 0 <= k < |r| ensures IsSimpleMatch(line, r[k].0, r[k].1) {
      SimpleMatchSound(line, r[k].0);
    }
  }

  // ---------------------------------------------------------------------------
  // Extract (link.go:26-81)
  // ---------------------------------------------------------------------------

  /** What a link taken from line `n` says about that line: the URL sits
      right after `](` at the 1-based column, starts with `.`, holds no `)`
      and is closed by `)`; path and anchor are its split. */
  predicate LinkFromLine(line: string, n: nat, l: Link) {
    && l.line == n
    && 3 <= l.column && l.column - 1 + |l.url| < |line|
    && line[l.column - 3] == ']' && line[l.column - 2] == '('
    && line[l.column - 1..l.column - 1 + |l.url|] == l.url
    && line[l.column - 1 + |l.url|] == ')'
    && |l.url| > 0 && l.url[0] == '.' && ')' !in l.url
    && (l.path, l.anchor) == SplitLinkAndAnchor(l.url)
    && !l.isValid
  }

  /** The link of one match (link.go:58-72): the URL between `](` and `)`,
      the 1-based column of its `.`, and its split at the first `#`. */
  function MatchLink(line: string, n: nat, s: nat, e: nat): Link
    requires s + 4 <= e <= |line|
  {
    var url := line[s + 2..e - 1];
    var (path, anchor) := SplitLinkAndAnchor(url);
    Link(url, n, s + 3, path, anchor, false)
  }

  /** The link of a match fits the line as LinkFromLine says. */
  lemma MatchLinkShape(line: string, n: nat, s: nat, e: nat)
    requires IsSimpleMatch(line, s, e)
    ensures LinkFromLine(line, n, MatchLink(line, n, s, e))
  {
    var url := line[s + 2..e - 1];
    assert url[0] == line[s + 2];
    assert ')' !in url by {
      forall j | 0 <= j < |url| ensures url[j] != ')' { assert url[j] == line[s + 2 + j]; }
    }
  }

  /** The links of line `n`, one per match, left to right. */
  function LineLinks(line: string, n: nat): seq<Link> {
    var ms := SimpleMatches(line);
    seq(|ms|, k requires 0 <= k < |ms| => MatchLink(line, n, ms[k].0, ms[k].1))
  }

  /** Every link of a line fits it as LinkFromLine says. */
  lemma LineLinksShape(line: string, n: nat)
    ensures forall k :: 0 <= k < |LineLinks(line, n)| ==> LinkFromLine(line, n, LineLinks(line, n)[k])
  {
    var ms := SimpleMatches(line);
    SimpleMatchesSound(line);
    forall k | 0 <= k < |LineLinks(line, n)| ensures LinkFromLine(line, n, LineLinks(line, n)[k]) {
      MatchLinkShape(line, n, ms[k].0, ms[k].1);
    }
  }

  /** What Extract returns for a file system entry. */
  function ExtractResult(entry: FileSystem.Entry): Outcome<seq<Link>, FileSystem.FsError> {
    match FileSystem.ReadLines(entry)
    case Err(e) => Err(e)
    case Ok(lines) => Ok(OutsideConcat(lines, LineLinks))
  }

  /** The k-th link of a line is the link of its k-th match. */
  lemma LineLinksAt(line: string, n: nat, k: nat)
    requires k < |SimpleMatches(line)|
    ensures |LineLinks(line, n)| == |SimpleMatches(line)|
    ensures LineLinks(line, n)[k] == MatchLink(line, n, SimpleMatches(line)[k].0, SimpleMatches(line)[k].1)
  {
  }

  /** Every link Extract returns lies on a line outside fences and is a
      match on that line; fence lines and fenced lines give no links. */
  lemma ExtractLinksOrigin(lines: seq<string>, k: nat)
    requires k < |OutsideConcat(lines, LineLinks)|
    ensures var l := OutsideConcat(lines, LineLinks)[k];
      1 <= l.line <= |lines| && OutsideFence(lines, l.line - 1) && LinkFromLine(lines[l.line - 1], l.line, l)
  {
    var i, j := OutsideConcatOrigin(lines, LineLinks, k);
    LineLinksShape(lines[i], i + 1);
  }

  /** The inner loop of Extract (link.go:56-73): one link per match of the
      line, left to right. */
  method MatchedLinks(line: string, lineNumber: nat) returns (links: seq<Link>)
    ensures links == LineLinks(line, lineNumber)
  {
    var matches := SimpleMatches(line);
    ghost var lineLinks := LineLinks(line, lineNumber);
    assert |lineLinks| == |matches|;
    links := [];
    for j := 0 to |matches|
      invariant links == lineLinks[..j]
    {
      LineLinksAt(line, lineNumber, j);
      var (start, end) := matches[j];
      var link := MatchLink(line, lineNumber, start, end);
      PrefixStep(lineLinks, j);
      links := links + [link];
    }
    assert lineLinks[..|matches|] == lineLinks;
  }

  /** Extract (link.go:26-81). */
  method Extract(entry: FileSystem.Entry) returns (r: Outcome<seq<Link>, FileSystem.FsError>)
    ensures r == ExtractResult(entry)
  {
    var read := FileSystem.ReadLines(entry);
    if read.Err? {
      return Err(read.error);
    }
    var lines := read.value;
    var links: seq<Link> := [];
    var inCodeBlock := false;
    var lineNumber := 0;
    while lineNumber < |lines|
      invariant 0 <= lineNumber <= |lines|
      invariant inCodeBlock <==> FenceCount(lines[..lineNumber]) % 2 == 1
      invariant links == OutsideConcat(lines[..lineNumber], LineLinks)
    {
      OutsideConcatStep(lines, LineLinks, lineNumber);
      ParityStep(FenceCount(lines[..lineNumber]));
      lineNumber := lineNumber + 1;
      var line := lines[lineNumber - 1];
      if HasPrefix(line, "```") {
        inCodeBlock := !inCodeBlock;
        continue;
      }
      if inCodeBlock {
        continue;
      }
      var found := MatchedLinks(line, lineNumber);
      links := links + found;
    }
    assert lines[..|lines|] == lines;
    return Ok(links);
  }

  // ---------------------------------------------------------------------------
  // DecodeURL (link.go:94-101)
  // ---------------------------------------------------------------------------

  /** `url.QueryUnescape`, given as a function: None when the text is not a
      valid escape sequence. */
  type Unescape = string -> Option<string>

  /** DecodeURL: path and error; the path is empty whenever decoding
      failed. */
  function DecodeURL(unescape: Unescape, path: string): (r: (string, bool))
    ensures r.1 <==> unescape(path).None?
    ensures r.1 ==> r.0 == ""
    ensures !r.1 ==> r.0 == unescape(path).value
  {
    match unescape(path)
    case None => ("", true)
    case Some(decoded) => (decoded, false)
  }
}
