/** internal/markdown/scan/scan.go: one pass over a Markdown file that
    collects its relative links and its heading anchors at once, and the
    per-path cache in front of it. A line is an HTML comment line, a fence
    line, a line inside a code block, a setext heading underline, an ATX
    heading, or a text line whose links are collected, considered in that
    order. */
module Scan {
  import opened Results
  import opened Strings
  import opened Matching
  import FileSystem
  import Fences
  import Links
  import Anchors
  import opened ScanPatterns
  import opened Sequences

  /** The link scan.go emits: URL, 1-based line and column, path and anchor
      parts, and the text of the line it was found on. */
  datatype Link = Link(url: string, line: nat, column: nat, path: string, anchor: string, lineContent: string)

  /** scan.Result */
  datatype Result = Result(links: seq<Link>, anchors: seq<string>, lineCount: nat)

  datatype ScanError = CheckPathFailed | IsADirectory | OpenFailed | ScanFailed

  // ---------------------------------------------------------------------------
  // extractLink (scan.go:174-201)
  // ---------------------------------------------------------------------------

  /** A link found on line `n`: its column points at the `.` right after
      `](`, its URL is the text there up to a quote or `)`, it holds no
      quote and no `)`, and it is split at its first `#`. */
  predicate LinkFromLine(line: string, n: nat, l: Link) {
    && l.line == n && l.lineContent == line
    && 3 <= l.column && l.column - 1 + |l.url| <= |line|
    && line[l.column - 3] == ']' && line[l.column - 2] == '('
    && line[l.column - 1..l.column - 1 + |l.url|] == l.url
    && |l.url| > 0 && l.url[0] == '.'
    && ')' !in l.url && '"' !in l.url && '\'' !in l.url
    && (l.path, l.anchor) == Links.SplitLinkAndAnchor(l.url)
  }

  /** The link of one match `line[s..e]`: the URL is the raw text between
      `](` and `)` cut at its first quote and right-trimmed, and the column
      is that of the `.` after `](`, counted from 1. */
  function MatchLink(line: string, n: nat, s: nat, e: nat): Link
    requires s + 4 <= e <= |line| && line[s + 2] == '.'
  {
    var urlText := UrlText(line[s + 2..e - 1]);
    var split := Links.SplitLinkAndAnchor(urlText);
    Link(urlText, n, s + 3, split.0, split.1, line)
  }

  /** The link of a match fits the line as LinkFromLine says. */
  lemma MatchLinkShape(line: string, n: nat, s: nat, e: nat)
    requires IsScanMatch(line, s, e)
    ensures line[s + 2] == '.' && LinkFromLine(line, n, MatchLink(line, n, s, e)) && MatchLink(line, n, s, e).column == s + 3
  {
    UrlTextHasNoParen(line, s, e);
    MatchLinkFits(line, n, s, e);
  }

  lemma MatchLinkFits(line: string, n: nat, s: nat, e: nat)
    requires s + 4 <= e <= |line| && line[s] == ']' && line[s + 1] == '(' && line[s + 2] == '.'
    requires ')' !in UrlText(line[s + 2..e - 1])
    ensures LinkFromLine(line, n, MatchLink(line, n, s, e)) && MatchLink(line, n, s, e).column == s + 3
  {
    var l := MatchLink(line, n, s, e);
    UrlTextFits(line, s, e);
    FieldsFit(line, n, l, s + 2);
  }

  /** A link whose fields sit at position `p` after `](` fits its line. */
  lemma FieldsFit(line: string, n: nat, l: Link, p: nat)
    requires 2 <= p && p + |l.url| <= |line| && l.column == p + 1 && l.line == n && l.lineContent == line
    requires line[p - 2] == ']' && line[p - 1] == '('
    requires line[p..p + |l.url|] == l.url
    requires |l.url| > 0 && l.url[0] == '.' && ')' !in l.url && '"' !in l.url && '\'' !in l.url
    requires (l.path, l.anchor) == Links.SplitLinkAndAnchor(l.url)
    ensures LinkFromLine(line, n, l)
  {
  }

  /** The URL sits at the `.` and holds no quote. */
  lemma UrlTextFits(line: string, s: nat, e: nat)
    requires s + 4 <= e <= |line| && line[s + 2] == '.'
    ensures var url := UrlText(line[s + 2..e - 1]);
      && s + 2 + |url| <= |line| && line[s + 2..s + 2 + |url|] == url
      && '"' !in url && '\'' !in url
  {
    var rawURL := line[s + 2..e - 1];
    var url := UrlText(rawURL);
    UrlTextPrefix(rawURL);
    assert line[s + 2..s + 2 + |url|] == rawURL[..|url|];
    assert forall k :: 0 <= k < |url| ==> !IsQuote(url[k]);
  }

  /** The links of line `n`, one per match, left to right. */
  function LineLinks(line: string, n: nat): seq<Link> {
    var ms := ScanMatches(line);
    seq(|ms|, k requires 0 <= k < |ms| => MatchLink(line, n, ms[k].0, ms[k].1))
  }

  /** Every link of a line fits it as LinkFromLine says. */
  lemma LineLinksShape(line: string, n: nat)
    ensures forall k :: 0 <= k < |LineLinks(line, n)| ==> LinkFromLine(line, n, LineLinks(line, n)[k])
  {
    var ms := ScanMatches(line);
    ScanMatchesSound(line);
    forall k | 0 <= k < |LineLinks(line, n)| ensures LinkFromLine(line, n, LineLinks(line, n)[k]) {
      MatchLinkShape(line, n, ms[k].0, ms[k].1);
    }
  }

  /** Every link of line `n` carries line number `n`. */
  lemma LineLinksLine(line: string, n: nat)
    ensures forall k :: 0 <= k < |LineLinks(line, n)| ==> LineLinks(line, n)[k].line == n
  {
  }

  lemma LineLinksAt(line: string, n: nat, k: nat)
    requires k < |ScanMatches(line)|
    ensures |LineLinks(line, n)| == |ScanMatches(line)|
    ensures LineLinks(line, n)[k] == MatchLink(line, n, ScanMatches(line)[k].0, ScanMatches(line)[k].1)
  {
  }

  lemma {:induction false} StartsIncrease(ms: seq<(nat, nat)>, a: nat, b: nat)
    requires forall k :: 0 <= k < |ms| ==> ms[k].0 < ms[k].1
    requires forall k :: 0 <= k < |ms| - 1 ==> ms[k].1 <= ms[k + 1].0
    requires a < b < |ms|
    ensures ms[a].0 < ms[b].0
    decreases b - a
  {
    if a + 1 < b {
      StartsIncrease(ms, a + 1, b);
    }
  }

  /** The links of one line come in strictly increasing column order. */
  lemma LineLinksIncrease(line: string, n: nat)
    ensures var r := LineLinks(line, n);
      forall a, b :: 0 <= a < b < |r| ==> r[a].column < r[b].column
  {
    var ms := ScanMatches(line);
    var r := LineLinks(line, n);
    forall a, b | 0 <= a < b < |r| ensures r[a].column < r[b].column {
      assert ms[a].0 < ms[a].1 && ms[b].0 < ms[b].1;
      StartsIncrease(ms, a, b);
      LineLinksAt(line, n, a);
      LineLinksAt(line, n, b);
    }
  }

  /** The match loop of extractLink: append the links of `line`. */
  method ExtractLink(links: seq<Link>, line: string, lineNumber: nat) returns (links': seq<Link>)
    ensures links' == links + LineLinks(line, lineNumber)
  {
    var matches := ScanMatches(line);
    ghost var found := LineLinks(line, lineNumber);
    assert |found| == |matches|;
    links' := links;
    for j := 0 to |matches|
      invariant links' == links + found[..j]
    {
      LineLinksAt(line, lineNumber, j);
      var (start, end) := matches[j];
      var link := MatchLink(line, lineNumber, start, end);
      AppendStep(links, found, j);
      links' := links' + [link];
    }
    assert found[..|matches|] == found;
  }

  // ---------------------------------------------------------------------------
  // The scanFile loop as a state machine (scan.go:91-154)
  // ---------------------------------------------------------------------------

  /** The three variables carried from line to line. */
  datatype ScanState = ScanState(inCodeBlock: bool, inHTMLComment: bool, previousLine: string)

  const Initial := ScanState(false, false, "")

  /** Which branch of the loop a line takes. */
  datatype LineKind =
    | CommentLine
    | FenceLine
    | CodeLine
    | SetextHeading(base: string)
    | AtxHeading(base: string)
    | TextLine

  /** The branch of a line in state `st`, in the loop's order. */
  function Classify(st: ScanState, line: string): LineKind {
    if IsHTMLCommentLine(line, st.inHTMLComment).0 then CommentLine
    else if HasCodeBlockMarker(line) then FenceLine
    else if st.inCodeBlock then CodeLine
    else match AltHeadingBase(st.previousLine, line)
      case Some(base) => SetextHeading(base)
      case None =>
        match AtxHeadingBase(line)
        case Some(base) => AtxHeading(base)
        case None => TextLine
  }

  /** The state after a line: the comment state follows isHTMLCommentLine,
      the code-block flag flips exactly on fence lines, and the previous line
      becomes this line whatever branch it took. */
  function Next(st: ScanState, line: string): (st': ScanState)
    ensures st'.inHTMLComment == IsHTMLCommentLine(line, st.inHTMLComment).1
    ensures st'.previousLine == line
  {
    var (skip, newInHTMLComment) := IsHTMLCommentLine(line, st.inHTMLComment);
    var inCodeBlock := if !skip && HasCodeBlockMarker(line) then !st.inCodeBlock else st.inCodeBlock;
    ScanState(inCodeBlock, newInHTMLComment, line)
  }

  /** The code-block flag flips exactly on fence lines. */
  lemma FlipsOnFence(st: ScanState, line: string)
    ensures Next(st, line).inCodeBlock != st.inCodeBlock <==> Classify(st, line) == FenceLine
  {
    var skip := IsHTMLCommentLine(line, st.inHTMLComment).0;
    if skip {
      assert Classify(st, line) == CommentLine;
    } else if HasCodeBlockMarker(line) {
      assert Classify(st, line) == FenceLine;
    } else {
      assert Next(st, line).inCodeBlock == st.inCodeBlock;
      assert Classify(st, line) != FenceLine;
    }
  }

  function StateAfter(lines: seq<string>): ScanState
    decreases |lines|
  {
    if |lines| == 0 then Initial
    else Next(StateAfter(lines[..|lines| - 1]), lines[|lines| - 1])
  }

  function KindAt(lines: seq<string>, i: nat): LineKind
    requires i < |lines|
  {
    Classify(StateAfter(lines[..i]), lines[i])
  }

  /** The base slug a line contributes, if it is a heading. */
  function LineBases(kind: LineKind): seq<string> {
    match kind
    case SetextHeading(base) => [base]
    case AtxHeading(base) => [base]
    case _ => []
  }

  /** The last of `prefix` is a text line. */
  predicate EndsInText(prefix: seq<string>) {
    |prefix| > 0 && KindAt(prefix, |prefix| - 1) == TextLine
  }

  /** The links of every text line, in file order. */
  function LinksOf(lines: seq<string>): seq<Link> {
    ConcatWhere(lines, EndsInText, LineLinks)
  }

  /** The base slugs of every heading, in file order. */
  function BasesOf(lines: seq<string>): seq<string>
    decreases |lines|
  {
    if |lines| == 0 then []
    else
      var n := |lines| - 1;
      BasesOf(lines[..n]) + LineBases(KindAt(lines, n))
  }

  /** What scanFile computes from the lines of a file. */
  function ScanSpec(lines: seq<string>): Result {
    Result(LinksOf(lines), Anchors.Disambiguate(BasesOf(lines)), |lines|)
  }

  /** One more line extends the state, the links and the bases by that
      line's contribution. */
  lemma ScanStep(lines: seq<string>, n: nat)
    requires n < |lines|
    ensures StateAfter(lines[..n + 1]) == Next(StateAfter(lines[..n]), lines[n])
    ensures LinksOf(lines[..n + 1]) ==
      LinksOf(lines[..n]) + (if KindAt(lines, n) == TextLine then LineLinks(lines[n], n + 1) else [])
    ensures BasesOf(lines[..n + 1]) == BasesOf(lines[..n]) + LineBases(KindAt(lines, n))
  {
    assert lines[..n + 1][..n] == lines[..n];
    assert lines[..n + 1][n] == lines[n];
    KindAtPrefix(lines, n + 1, n);
  }

  /** The branch of line `n` does not depend on the lines after it. */
  lemma KindAtPrefix(lines: seq<string>, m: nat, n: nat)
    requires n < m <= |lines|
    ensures KindAt(lines[..m], n) == KindAt(lines, n)
  {
    assert lines[..m][..n] == lines[..n];
  }

  // ---------------------------------------------------------------------------
  // extractAltHeading and extractHeading (scan.go:203-256)
  // ---------------------------------------------------------------------------

  /** extractAltHeading: on a setext underline below a non-empty line, record
      the previous line's slug. */
  method ExtractAltHeading(anchors: seq<string>, currentLine: string, previousLine: string, anchorCount: map<string, nat>)
    returns (found: bool, anchors': seq<string>, anchorCount': map<string, nat>)
    ensures found <==> AltHeadingBase(previousLine, currentLine).Some?
    ensures found ==> (anchors', anchorCount') == Anchors.Record(anchors, anchorCount, AltHeadingBase(previousLine, currentLine).value)
    ensures !found ==> anchors' == anchors && anchorCount' == anchorCount
  {
    if previousLine != "" && !HasPrefix(currentLine, "#") && IsSetextUnderline(currentLine) {
      var heading := TrimRight(previousLine, IsBlank);
      var anchorText := Anchors.GenerateAnchor(heading);
      var count := Anchors.Count(anchorCount, anchorText);
      if count > 0 {
        anchors' := anchors + [anchorText + "-" + NatToString(count)];
      } else {
        anchors' := anchors + [anchorText];
      }
      anchorCount' := anchorCount[anchorText := count + 1];
      return true, anchors', anchorCount';
    }
    return false, anchors, anchorCount;
  }

  /** extractHeading: on an ATX heading, record the slug of its text with
      links reduced to their text. */
  method ExtractHeading(anchors: seq<string>, line: string, anchorCount: map<string, nat>)
    returns (found: bool, anchors': seq<string>, anchorCount': map<string, nat>)
    ensures found <==> AtxHeadingBase(line).Some?
    ensures found ==> (anchors', anchorCount') == Anchors.Record(anchors, anchorCount, AtxHeadingBase(line).value)
    ensures !found ==> anchors' == anchors && anchorCount' == anchorCount
  {
    if !HasPrefix(line, "#") {
      return false, anchors, anchorCount;
    }
    if !Anchors.MatchesAtxPrefix(line) {
      return false, anchors, anchorCount;
    }
    var heading := Anchors.StripHashPrefix(line);
    heading := TrimRight(heading, IsBlank);
    heading := StripLinks(heading);
    var anchorText := Anchors.GenerateAnchor(heading);
    var count := Anchors.Count(anchorCount, anchorText);
    if count > 0 {
      anchors' := anchors + [anchorText + "-" + NatToString(count)];
    } else {
      anchors' := anchors + [anchorText];
    }
    anchorCount' := anchorCount[anchorText := count + 1];
    return true, anchors', anchorCount';
  }

  /** The body of scanFile's loop for one line (scan.go:104-142): the branch
      Classify names is taken, the comment and code-block flags move as Next
      says, and only a text line adds links and only a heading adds a base. */
  method ScanLine(inCodeBlock: bool, inHTMLComment: bool, previousLine: string, line: string, lineNumber: nat,
                  links: seq<Link>, anchors: seq<string>, anchorCount: map<string, nat>, ghost bases: seq<string>)
    returns (inCodeBlock': bool, inHTMLComment': bool, links': seq<Link>, anchors': seq<string>,
             anchorCount': map<string, nat>, ghost bases': seq<string>)
    requires anchors == Anchors.Disambiguate(bases) && Anchors.Tracks(anchorCount, bases)
    ensures var st := ScanState(inCodeBlock, inHTMLComment, previousLine);
      ScanState(inCodeBlock', inHTMLComment', line) == Next(st, line)
    ensures var st := ScanState(inCodeBlock, inHTMLComment, previousLine);
      links' == links + (if Classify(st, line) == TextLine then LineLinks(line, lineNumber) else [])
    ensures bases' == bases + LineBases(Classify(ScanState(inCodeBlock, inHTMLComment, previousLine), line))
    ensures anchors' == Anchors.Disambiguate(bases') && Anchors.Tracks(anchorCount', bases')
    ensures anchors' == Anchors.Disambiguate(bases + LineBases(Classify(ScanState(inCodeBlock, inHTMLComment, previousLine), line)))
  {
    ghost var kind := Classify(ScanState(inCodeBlock, inHTMLComment, previousLine), line);
    links', anchors', anchorCount', bases' := links, anchors, anchorCount, bases;
    inCodeBlock' := inCodeBlock;
    var (skip, newInHTMLComment) := IsHTMLCommentLine(line, inHTMLComment);
    inHTMLComment' := newInHTMLComment;
    if skip {
      assert kind == CommentLine;
      return;
    }
    if HasCodeBlockMarker(line) {
      assert kind == FenceLine;
      inCodeBlock' := !inCodeBlock;
      return;
    }
    if inCodeBlock {
      assert kind == CodeLine;
      return;
    }
    var found;
    ghost var alt := AltHeadingBase(previousLine, line);
    if alt.Some? {
      assert kind == SetextHeading(alt.value);
      Anchors.RecordStep(anchors, anchorCount, bases, alt.value);
    }
    found, anchors', anchorCount' := ExtractAltHeading(anchors, line, previousLine, anchorCount);
    if found {
      bases' := bases + [alt.value];
      return;
    }
    ghost var atx := AtxHeadingBase(line);
    if atx.Some? {
      assert kind == AtxHeading(atx.value);
      Anchors.RecordStep(anchors, anchorCount, bases, atx.value);
    }
    found, anchors', anchorCount' := ExtractHeading(anchors, line, anchorCount);
    if found {
      bases' := bases + [atx.value];
      return;
    }
    assert kind == TextLine;
    links' := ExtractLink(links, line, lineNumber);
  }

  /** scanFile over the lines the scanner delivers; `readFails` is a scanner
      error after the last of them. */
  method ScanFile(lines: seq<string>, readFails: bool) returns (r: Outcome<Result, ScanError>)
    ensures readFails ==> r == Err(ScanFailed)
    ensures !readFails ==> r == Ok(ScanSpec(lines))
  {
    var links: seq<Link> := [];
    var anchors: seq<string> := [];
    var inCodeBlock := false;
    var inHTMLComment := false;
    var lineNumber := 0;
    var anchorCount: map<string, nat> := map[];
    var previousLine := "";
    ghost var bases: seq<string> := [];
    Anchors.TracksEmpty();
    while lineNumber < |lines|
      invariant 0 <= lineNumber <= |lines|
      invariant ScanState(inCodeBlock, inHTMLComment, previousLine) == StateAfter(lines[..lineNumber])
      invariant links == LinksOf(lines[..lineNumber])
      invariant bases == BasesOf(lines[..lineNumber])
      invariant anchors == Anchors.Disambiguate(bases) && Anchors.Tracks(anchorCount, bases)
    {
      ScanStep(lines, lineNumber);
      lineNumber := lineNumber + 1;
      var line := lines[lineNumber - 1];
      inCodeBlock, inHTMLComment, links, anchors, anchorCount, bases :=
        ScanLine(inCodeBlock, inHTMLComment, previousLine, line, lineNumber, links, anchors, anchorCount, bases);
      previousLine := line;
    }
    if readFails {
      return Err(ScanFailed);
    }
    assert lines[..|lines|] == lines;
    return Ok(Result(links, anchors, lineNumber));
  }

  // ---------------------------------------------------------------------------
  // Properties of the scan
  // ---------------------------------------------------------------------------

  /** Every link is one of the links of a text line: a line outside
      comments and code blocks that is neither a fence nor a heading. */
  lemma LinksSource(lines: seq<string>, k: nat) returns (i: nat, j: nat)
    requires k < |LinksOf(lines)|
    ensures i < |lines| && KindAt(lines, i) == TextLine
    ensures j < |LineLinks(lines[i], i + 1)| && LinksOf(lines)[k] == LineLinks(lines[i], i + 1)[j]
  {
    i, j := ConcatWhereOrigin(lines, EndsInText, LineLinks, k);
    KindAtPrefix(lines, i + 1, i);
  }

  /** Every link comes from a text line, at the place LinkFromLine says. */
  lemma LinksOrigin(lines: seq<string>, k: nat) returns (i: nat)
    requires k < |LinksOf(lines)|
    ensures i < |lines| && KindAt(lines, i) == TextLine
    ensures LinksOf(lines)[k].line == i + 1 && LinkFromLine(lines[i], i + 1, LinksOf(lines)[k])
  {
    var j;
    i, j := LinksSource(lines, k);
    LineLinksShape(lines[i], i + 1);
  }

  /** Every link's line lies within the first |lines| lines. */
  lemma LinksWithin(lines: seq<string>)
    ensures forall k :: 0 <= k < |LinksOf(lines)| ==> 1 <= LinksOf(lines)[k].line <= |lines|
  {
    forall k | 0 <= k < |LinksOf(lines)| ensures 1 <= LinksOf(lines)[k].line <= |lines| {
      var i, j := LinksSource(lines, k);
      LineLinksLine(lines[i], i + 1);
    }
  }

  /** x comes before y in reading order. */
  predicate Before(x: Link, y: Link) {
    x.line < y.line || (x.line == y.line && x.column < y.column)
  }

  predicate Ordered(links: seq<Link>) {
    forall a, b :: 0 <= a < b < |links| ==> Before(links[a], links[b])
  }

  lemma OrderedConcat(p: seq<Link>, q: seq<Link>)
    requires Ordered(p) && Ordered(q)
    requires forall a, b :: 0 <= a < |p| && 0 <= b < |q| ==> Before(p[a], q[b])
    ensures Ordered(p + q)
  {
    var all := p + q;
    forall a, b | 0 <= a < b < |all| ensures Before(all[a], all[b]) {
      if b < |p| {
        assert all[a] == p[a] && all[b] == p[b];
      } else if a < |p| {
        assert all[a] == p[a] && all[b] == q[b - |p|];
      } else {
        assert all[a] == q[a - |p|] && all[b] == q[b - |p|];
      }
    }
  }

  /** The links come in reading order: by line, then by column. */
  lemma {:induction false} LinksOrdered(lines: seq<string>)
    ensures Ordered(LinksOf(lines))
    decreases |lines|
  {
    if |lines| > 0 {
      var n := |lines| - 1;
      var prior := LinksOf(lines[..n]);
      var added := if KindAt(lines, n) == TextLine then LineLinks(lines[n], n + 1) else [];
      assert LinksOf(lines) == prior + added;
      LinksOrdered(lines[..n]);
      LinksWithin(lines[..n]);
      LineLinksIncrease(lines[n], n + 1);
      LineLinksLine(lines[n], n + 1);
      assert Ordered(added);
      OrderedConcat(prior, added);
    }
  }

  /** Every anchor comes from a heading line, carries that heading's base
      slug, and is suffixed with the number of earlier headings of the same
      base. */
  lemma {:induction false} BasesOrigin(lines: seq<string>, k: nat) returns (i: nat)
    requires k < |BasesOf(lines)|
    ensures i < |lines|
    ensures KindAt(lines, i) == SetextHeading(BasesOf(lines)[k]) || KindAt(lines, i) == AtxHeading(BasesOf(lines)[k])
    decreases |lines|
  {
    var n := |lines| - 1;
    var prior := BasesOf(lines[..n]);
    if k < |prior| {
      i := BasesOrigin(lines[..n], k);
      KindAtPrefix(lines, n, i);
    } else {
      i := n;
    }
  }

  lemma AnchorsOrigin(lines: seq<string>, k: nat) returns (i: nat)
    requires k < |ScanSpec(lines).anchors|
    ensures var bases := BasesOf(lines);
      |ScanSpec(lines).anchors| == |bases| &&
      ScanSpec(lines).anchors[k] == Anchors.Suffixed(bases[k], Anchors.Occurrences(bases[..k], bases[k]))
    ensures i < |lines|
    ensures KindAt(lines, i) == SetextHeading(BasesOf(lines)[k]) || KindAt(lines, i) == AtxHeading(BasesOf(lines)[k])
  {
    Anchors.DisambiguateAt(BasesOf(lines), k);
    i := BasesOrigin(lines, k);
  }

  /** Lines on which an HTML comment is open, or that start one, are skipped
      before the fence test: they never open or close a code block. */
  lemma CommentWinsOverFence(st: ScanState, line: string)
    requires IsHTMLCommentLine(line, st.inHTMLComment).0
    ensures Classify(st, line) == CommentLine
    ensures Next(st, line).inCodeBlock == st.inCodeBlock
  {
  }

  /** The number of fence lines among `lines`. */
  function FenceLines(lines: seq<string>): nat
    decreases |lines|
  {
    if |lines| == 0 then 0
    else
      var n := |lines| - 1;
      FenceLines(lines[..n]) + (if KindAt(lines, n) == FenceLine then 1 else 0)
  }

  /** A code block is open after an odd number of fence lines. */
  lemma {:induction false} CodeBlockParity(lines: seq<string>)
    ensures StateAfter(lines).inCodeBlock <==> FenceLines(lines) % 2 == 1
    decreases |lines|
  {
    if |lines| > 0 {
      var n := |lines| - 1;
      CodeBlockParity(lines[..n]);
      Fences.ParityStep(FenceLines(lines[..n]));
      FlipsOnFence(StateAfter(lines[..n]), lines[n]);
    }
  }

  /** The heading a setext underline completes is the line just before it,
      whatever branch that line took: a comment, a fence or a code line
      above `---` gives an anchor too. */
  lemma SetextUsesPreviousLine(lines: seq<string>, n: nat)
    requires 0 < n < |lines|
    requires !IsHTMLCommentLine(lines[n], StateAfter(lines[..n]).inHTMLComment).0
    requires !HasCodeBlockMarker(lines[n]) && !StateAfter(lines[..n]).inCodeBlock
    requires lines[n - 1] != "" && IsSetextUnderline(lines[n]) && !HasPrefix(lines[n], "#")
    ensures KindAt(lines, n) == SetextHeading(Anchors.GenerateAnchor(TrimRight(lines[n - 1], IsBlank)))
  {
    var st := StateAfter(lines[..n]);
    assert lines[..n][..n - 1] == lines[..n - 1];
    assert st == Next(StateAfter(lines[..n - 1]), lines[n - 1]);
    assert st.previousLine == lines[n - 1];
    assert AltHeadingBase(st.previousLine, lines[n]) == Some(Anchors.GenerateAnchor(TrimRight(lines[n - 1], IsBlank)));
  }

  // ---------------------------------------------------------------------------
  // File and scanCache (scan.go:22, 32-65)
  // ---------------------------------------------------------------------------

  /** What File returns for `path` when nothing is cached: the path check
      (fileutils.IsDirectory, which fails only on a missing path), the
      directory test, os.Open, then the scan. */
  function Uncached(fs: FileSystem.Fs, path: string): (r: Outcome<Result, ScanError>)
    ensures r.Ok? ==> FileSystem.Lookup(fs, path).Regular? && !FileSystem.Lookup(fs, path).readFails
  {
    match FileSystem.Lookup(fs, path)
    case Missing => Err(CheckPathFailed)
    case Directory => Err(IsADirectory)
    case Unreadable => Err(OpenFailed)
    case Regular(lines, readFails) => if readFails then Err(ScanFailed) else Ok(ScanSpec(lines))
  }

  /** A successful uncached result is the scan of the file's lines. */
  lemma UncachedOk(fs: FileSystem.Fs, path: string)
    requires Uncached(fs, path).Ok?
    ensures Uncached(fs, path).value == ScanSpec(FileSystem.Lookup(fs, path).lines)
    ensures Uncached(fs, path).value.lineCount == |FileSystem.Lookup(fs, path).lines|
  {
  }

  /** The package-level scanCache and File. */
  class ScanCache {
    var entries: map<string, Result>

    constructor()
      ensures entries == map[]
    {
      entries := map[];
    }

    /** Every cached result is what an uncached File would return now. */
    ghost predicate Consistent(fs: FileSystem.Fs)
      reads this
    {
      forall p :: p in entries ==> Uncached(fs, p) == Ok(entries[p])
    }

    /** A hit returns the stored result and looks at nothing else; a miss
        returns the uncached result and stores it only when it succeeds. On
        an unchanged file system the cache is therefore invisible. */
    method File(fs: FileSystem.Fs, path: string) returns (r: Outcome<Result, ScanError>)
      modifies this
      ensures path in old(entries) ==> r == Ok(old(entries)[path]) && entries == old(entries)
      ensures path !in old(entries) ==> r == Uncached(fs, path)
      ensures path !in old(entries) && r.Ok? ==> entries == old(entries)[path := r.value]
      ensures r.Err? ==> entries == old(entries)
      ensures old(Consistent(fs)) ==> Consistent(fs) && r == Uncached(fs, path)
    {
      if path in entries {
        return Ok(entries[path]);
      }
      var entry := FileSystem.Lookup(fs, path);
      if entry.Missing? {
        return Err(CheckPathFailed);
      }
      if entry.Directory? {
        return Err(IsADirectory);
      }
      if entry.Unreadable? {
        return Err(OpenFailed);
      }
      var result := ScanFile(entry.lines, entry.readFails);
      if result.Err? {
        return Err(result.error);
      }
      entries := entries[path := result.value];
      return Ok(result.value);
    }
  }
}
