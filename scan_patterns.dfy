/** The line tests and fixed patterns of internal/markdown/scan/scan.go:
    isHTMLCommentLine, hasCodeBlockMarker, the link pattern with an optional
    quoted title, the `[text](target)` remover used on ATX headings, and the
    setext underline pattern. */
module ScanPatterns {
  import opened Results
  import opened Strings
  import opened Matching
  import Links
  import Anchors

  // ---------------------------------------------------------------------------
  // isHTMLCommentLine (scan.go:67-88)
  // ---------------------------------------------------------------------------

  /** (skip, new inHTMLComment): a line is skipped exactly when a comment is
      open or its trimmed text starts with `<!--`, and a comment stays open
      exactly when the line is skipped and its trimmed text has no `-->`. */
  function IsHTMLCommentLine(line: string, inHTMLComment: bool): (r: (bool, bool))
    ensures var trimmed := TrimSpace(line);
      && (r.0 <==> inHTMLComment || HasPrefix(trimmed, "<!--"))
      && (r.1 <==> r.0 && !Contains(trimmed, "-->"))
  {
    var trimmed := TrimSpace(line);
    if HasPrefix(trimmed, "<!--") && !Contains(trimmed, "-->") then (true, true)
    else if inHTMLComment then
      if Contains(trimmed, "-->") then (true, false) else (true, true)
    else if HasPrefix(trimmed, "<!--") && Contains(trimmed, "-->") then (true, false)
    else (false, inHTMLComment)
  }

  // ---------------------------------------------------------------------------
  // hasCodeBlockMarker (scan.go:156-172)
  // ---------------------------------------------------------------------------

  /** After removing leading spaces and tabs the line starts with three
      backticks, and no further three backticks follow them. */
  predicate HasCodeBlockMarker(line: string) {
    var trimmedLine := TrimLeft(line, IsBlank);
    HasPrefix(trimmedLine, "```") && !Contains(trimmedLine[3..], "```")
  }

  lemma {:induction false} TrimLeftBlanks(indent: string, s: string)
    requires forall k :: 0 <= k < |indent| ==> IsBlank(indent[k])
    requires |s| > 0 ==> !IsBlank(s[0])
    ensures TrimLeft(indent + s, IsBlank) == s
    decreases |indent|
  {
    if |indent| == 0 {
      assert indent + s == s;
    } else {
      assert (indent + s)[1..] == indent[1..] + s;
      TrimLeftBlanks(indent[1..], s);
    }
  }

  /** Indented by blanks, three backticks open or close a block exactly when
      the rest of the line holds no three backticks. */
  lemma MarkerShape(indent: string, rest: string)
    requires forall k :: 0 <= k < |indent| ==> IsBlank(indent[k])
    ensures HasCodeBlockMarker(indent + "```" + rest) <==> !Contains(rest, "```")
  {
    assert indent + "```" + rest == indent + ("```" + rest);
    TrimLeftBlanks(indent, "```" + rest);
    assert ("```" + rest)[3..] == rest;
    assert ("```" + rest)[..3] == "```";
  }

  /** Six backticks are not a marker; three backticks and a language are. */
  lemma MarkerExamples()
    ensures !HasCodeBlockMarker("``````")
    ensures HasCodeBlockMarker("  ```go")
  {
    MarkerShape("", "```");
    assert "" + "```" + "```" == "``````";
    assert Contains("```", "```") by { assert HasPrefix("```", "```"); }
    MarkerShape("  ", "go");
    assert "  " + "```" + "go" == "  ```go";
    if Contains("go", "```") {
      ContainsNeedsRoom("go", "```");
    }
  }

  // ---------------------------------------------------------------------------
  // The link pattern `\]\(\.[^)"']*(?:"[^"]*"|'[^']*')?\)` (scan.go:25)
  // ---------------------------------------------------------------------------

  predicate IsStop(c: char) {
    c == ')' || c == '"' || c == '\''
  }

  predicate IsQuote(c: char) {
    c == '"' || c == '\''
  }

  /** The test for one given character. */
  function Is(x: char): char -> bool {
    c => c == x
  }

  predicate NoStops(s: string) {
    forall k :: 0 <= k < |s| ==> !IsStop(s[k])
  }

  /** `"[^"]*"` or `'[^']*'`. */
  predicate IsTitle(t: string) {
    |t| >= 2 && IsQuote(t[0]) && t[|t| - 1] == t[0] && forall k :: 0 < k < |t| - 1 ==> t[k] != t[0]
  }

  /** What the pattern allows after `](.` and before the closing `)`:
      `[^)"']*` and then, optionally, a quoted title. */
  predicate IsLinkBody(b: string) {
    NoStops(b) || exists q :: 0 <= q <= |b| && NoStops(b[..q]) && IsTitle(b[q..])
  }

  /** The pattern matches `line[s..e]`. */
  predicate IsScanMatch(line: string, s: nat, e: nat) {
    && s + 4 <= e <= |line|
    && line[s] == ']' && line[s + 1] == '(' && line[s + 2] == '.'
    && line[e - 1] == ')' && IsLinkBody(line[s + 3..e - 1])
  }

  /** The end of the match starting at `i`, if any. `[^)"']*` runs to the
      first `)`, `"` or `'`; a `)` there ends the match; a quote must be
      closed by the next equal quote, which must be followed by `)`. No
      other way of matching exists, so this is the regular expression's only
      match at `i`. */
  function ScanMatchAt(line: string, i: nat): (r: Option<nat>)
    ensures r.Some? ==> i + 4 <= r.value <= |line| && line[i + 2] == '.'
  {
    if i + 3 <= |line| && line[i] == ']' && line[i + 1] == '(' && line[i + 2] == '.' then
      match IndexFrom(line, i + 3, IsStop)
      case None => None
      case Some(q) => MatchAfterStop(line, q)
    else None
  }

  /** The end of the match once `[^)"']*` has stopped at `q`: a `)` ends it;
      a quote must be closed by the next equal quote, followed by `)`. */
  function MatchAfterStop(line: string, q: nat): (r: Option<nat>)
    requires q < |line|
    ensures r.Some? ==> q < r.value <= |line|
  {
    if line[q] == ')' then Some(q + 1)
    else
      match IndexFrom(line, q + 1, Is(line[q]))
      case None => None
      case Some(close) =>
        if close + 1 < |line| && line[close + 1] == ')' then Some(close + 2) else None
  }

  /** Every match ScanMatchAt reports is a match of the pattern. */
  lemma ScanMatchSound(line: string, i: nat)
    ensures ScanMatchAt(line, i).Some? ==> IsScanMatch(line, i, ScanMatchAt(line, i).value)
  {
    if ScanMatchAt(line, i).Some? {
      var q := IndexFrom(line, i + 3, IsStop).value;
      IndexFromFirst(line, i + 3, IsStop);
      var run := line[i + 3..q];
      assert NoStops(run) by {
        forall j | 0 <= j < |run| ensures !IsStop(run[j]) {
          assert run[j] == line[i + 3 + j];
        }
      }
      AfterStopSound(line, i + 3, q);
    }
  }

  /** After a stop-free run from `b` to the stop at `q`, what
      MatchAfterStop reports closes a link body. */
  lemma AfterStopSound(line: string, b: nat, q: nat)
    requires b <= q < |line| && NoStops(line[b..q]) && IsStop(line[q])
    ensures MatchAfterStop(line, q).Some? ==>
      var e := MatchAfterStop(line, q).value;
      b < e && line[e - 1] == ')' && IsLinkBody(line[b..e - 1])
  {
    if MatchAfterStop(line, q).Some? {
      var e := MatchAfterStop(line, q).value;
      var body := line[b..e - 1];
      if line[q] == ')' {
        assert body == line[b..q];
      } else {
        var close := IndexFrom(line, q + 1, Is(line[q])).value;
        IndexFromFirst(line, q + 1, Is(line[q]));
        var t := line[q..e - 1];
        var qq := q - b;
        assert close == e - 2;
        assert body[..qq] == line[b..q];
        assert body[qq..] == t;
        assert t[0] == line[q] && t[|t| - 1] == line[close];
        forall j | 0 < j < |t| - 1 ensures t[j] != t[0] {
          assert t[j] == line[q + j];
          assert !Is(line[q])(line[q + j]);
        }
        assert IsTitle(body[qq..]);
      }
    }
  }

  /** The pattern has no match at `i` other than the one ScanMatchAt
      reports. */
  lemma ScanMatchComplete(line: string, i: nat, e: nat)
    requires IsScanMatch(line, i, e)
    ensures ScanMatchAt(line, i) == Some(e)
  {
    var body := line[i + 3..e - 1];
    if NoStops(body) {
      UntitledMatch(line, i, e);
    } else {
      var qq :| 0 <= qq <= |body| && NoStops(body[..qq]) && IsTitle(body[qq..]);
      var q := i + 3 + qq;
      assert NoStops(line[i + 3..q]) by { assert body[..qq] == line[i + 3..q]; }
      assert IsTitle(line[q..e - 1]) by { assert body[qq..] == line[q..e - 1]; }
      TitledMatch(line, i, e, q);
    }
  }

  lemma UntitledMatch(line: string, i: nat, e: nat)
    requires i + 4 <= e <= |line| && line[i] == ']' && line[i + 1] == '(' && line[i + 2] == '.'
    requires line[e - 1] == ')'
    requires NoStops(line[i + 3..e - 1])
    ensures ScanMatchAt(line, i) == Some(e)
  {
    forall m | i + 3 <= m < e - 1 ensures !IsStop(line[m]) {
      assert line[m] == line[i + 3..e - 1][m - (i + 3)];
    }
    IndexFromFinds(line, i + 3, IsStop, e - 1);
  }

  lemma TitledMatch(line: string, i: nat, e: nat, q: nat)
    requires i + 4 <= e <= |line| && line[i] == ']' && line[i + 1] == '(' && line[i + 2] == '.'
    requires line[e - 1] == ')'
    requires i + 3 <= q <= e - 1
    requires NoStops(line[i + 3..q]) && IsTitle(line[q..e - 1])
    ensures ScanMatchAt(line, i) == Some(e)
  {
    forall m | i + 3 <= m < q ensures !IsStop(line[m]) {
      assert line[m] == line[i + 3..q][m - (i + 3)];
    }
    var t := line[q..e - 1];
    assert IsStop(line[q]) by { assert line[q] == t[0]; }
    IndexFromFinds(line, i + 3, IsStop, q);
    forall m | q + 1 <= m < e - 2 ensures !Is(line[q])(line[m]) {
      assert line[m] == t[m - q];
    }
    assert line[e - 2] == t[|t| - 1];
    IndexFromFinds(line, q + 1, Is(line[q]), e - 2);
  }

  /** The matches of the pattern in `line`, as FindAllStringIndex finds them. */
  function ScanMatches(line: string): (r: seq<(nat, nat)>)
    ensures forall k :: 0 <= k < |r| ==> r[k].0 + 4 <= r[k].1 <= |line| && line[r[k].0 + 2] == '.'
  {
    FindAll((i: nat) => ScanMatchAt(line, i), |line|, 0)
  }

  /** Every match found is a match of the pattern. */
  lemma ScanMatchesSound(line: string)
    ensures var r := ScanMatches(line);
      forall k :: 0 <= k < |r| ==> IsScanMatch(line, r[k].0, r[k].1)
  {
    var r := ScanMatches(line);
    forall k | 0 <= k < |r| ensures IsScanMatch(line, r[k].0, r[k].1) {
      ScanMatchSound(line, r[k].0);
    }
  }

  /** The URL of a raw link text `.…`: the text before the first quote with
      trailing white space removed, or all of it when it has no quote. */
  function UrlText(raw: string): (url: string)
    requires |raw| > 0 && raw[0] == '.'
    ensures 0 < |url| <= |raw| && url[0] == '.'
  {
    match IndexWhere(raw, IsQuote)
    case None => raw
    case Some(idx) =>
      TrimmedPrefix(raw, idx);
      TrimSpace(raw[..idx])
  }

  /** The URL is a prefix of the raw text, holds no quote, and is all of it
      when the raw text has no quote. */
  lemma UrlTextPrefix(raw: string)
    requires |raw| > 0 && raw[0] == '.'
    ensures var url := UrlText(raw);
      && url == raw[..|url|]
      && (forall k :: 0 <= k < |url| ==> !IsQuote(url[k]))
      && ((forall k :: 0 <= k < |raw| ==> !IsQuote(raw[k])) ==> url == raw)
  {
    match IndexWhere(raw, IsQuote)
    case None =>
    case Some(idx) =>
      TrimmedPrefix(raw, idx);
  }

  lemma TrimmedPrefix(raw: string, idx: nat)
    requires 0 < idx <= |raw| && !IsSpace(raw[0])
    ensures var url := TrimSpace(raw[..idx]);
      0 < |url| <= idx && url[0] == raw[0] && url == raw[..|url|]
  {
    var before := raw[..idx];
    TrimSpaceKeepsFirst(before);
    TrimRightPrefix(before, IsSpace);
    var url := TrimSpace(before);
    assert url == before[..|url|];
    assert forall k :: 0 <= k < |url| ==> url[k] == before[k] == raw[k];
  }

  /** A matched link's URL never holds `)`: a `)` can only occur inside the
      quoted title, which the URL excludes. */
  lemma UrlTextHasNoParen(line: string, s: nat, e: nat)
    requires IsScanMatch(line, s, e)
    ensures line[s + 2] == '.' && ')' !in UrlText(line[s + 2..e - 1])
  {
    var raw := line[s + 2..e - 1];
    assert raw[0] == line[s + 2];
    assert raw[1..] == line[s + 3..e - 1];
    RawTextHasNoParen(raw);
  }

  /** `.` and a link body: the URL holds no `)`. */
  lemma RawTextHasNoParen(raw: string)
    requires |raw| > 0 && raw[0] == '.' && IsLinkBody(raw[1..])
    ensures ')' !in UrlText(raw)
  {
    var body := raw[1..];
    if NoStops(body) {
      forall j | 0 <= j < |raw| ensures !IsQuote(raw[j]) && raw[j] != ')' {
        if j > 0 {
          assert raw[j] == body[j - 1];
        }
      }
      UrlTextPrefix(raw);
    } else {
      var qq :| 0 <= qq <= |body| && NoStops(body[..qq]) && IsTitle(body[qq..]);
      forall j | 1 <= j <= qq ensures !IsStop(raw[j]) {
        assert raw[j] == body[..qq][j - 1];
      }
      assert raw[qq + 1] == body[qq..][0];
      NoParenBeforeTitle(raw, qq);
    }
  }

  /** Stop-free up to the quote at `qq + 1`, the URL holds no `)`. */
  lemma NoParenBeforeTitle(raw: string, qq: nat)
    requires qq + 1 < |raw| && raw[0] == '.' && IsQuote(raw[qq + 1])
    requires forall j :: 1 <= j <= qq ==> !IsStop(raw[j])
    ensures ')' !in UrlText(raw)
  {
    var url := UrlText(raw);
    UrlTextPrefix(raw);
    forall j | 0 <= j < |url| ensures url[j] != ')' {
      assert url[j] == raw[j];
    }
  }

  // ---------------------------------------------------------------------------
  // markdownLinkPattern `\[(.*?)\]\([^\)]*\)` replaced by `$1` (scan.go:29, 220)
  // ---------------------------------------------------------------------------

  /** The first `](` at or after `p`. */
  function FindLinkMiddle(s: string, p: nat): (r: Option<nat>)
    ensures r.Some? ==> p <= r.value && r.value + 2 <= |s| && s[r.value] == ']' && s[r.value + 1] == '('
    ensures forall j :: p <= j < (if r.Some? then r.value else |s|) && j + 1 < |s| ==> !(s[j] == ']' && s[j + 1] == '(')
    decreases |s| - p
  {
    if p + 2 > |s| then None
    else if s[p] == ']' && s[p + 1] == '(' then Some(p)
    else FindLinkMiddle(s, p + 1)
  }

  /** The match at `i`, as (end of the captured text, end of the match): a
      `[`, the shortest text up to a `](` (it cannot cross a line break),
      then everything up to the first `)`. */
  function LinkTextAt(s: string, i: nat): (r: Option<(nat, nat)>)
    ensures r.Some? ==> i < |s| && s[i] == '[' && i + 1 <= r.value.0 && r.value.0 + 3 <= r.value.1 <= |s|
  {
    if i < |s| && s[i] == '[' then
      match FindLinkMiddle(s, i + 1)
      case None => None
      case Some(j) =>
        if '\n' in s[i + 1..j] then None
        else match IndexWhere(s[j + 2..], Links.IsCloseParen)
          case None => None
          case Some(k) => Some((j, j + 3 + k))
    else None
  }

  /** ReplaceAllString(s[p..], "$1"): each match is replaced by its captured
      text; the search resumes after the match. */
  function StripLinksFrom(s: string, p: nat): (r: string)
    requires p <= |s|
    ensures |r| <= |s| - p
    decreases |s| - p
  {
    if p >= |s| then ""
    else match LinkTextAt(s, p)
      case Some(m) => s[p + 1..m.0] + StripLinksFrom(s, m.1)
      case None => [s[p]] + StripLinksFrom(s, p + 1)
  }

  function StripLinks(s: string): string {
    StripLinksFrom(s, 0)
  }

  /** Text without `[` is left alone. */
  lemma {:induction false} StripLinksNoBracket(s: string, p: nat)
    requires p <= |s|
    requires forall k :: p <= k < |s| ==> s[k] != '['
    ensures StripLinksFrom(s, p) == s[p..]
    decreases |s| - p
  {
    if p < |s| {
      StripLinksNoBracket(s, p + 1);
      assert s[p..] == [s[p]] + s[p + 1..];
    }
  }

  /** A link at the start of a heading is reduced to its text. */
  lemma StripLinksPrefix(text: string, target: string, rest: string)
    requires '\n' !in text && ']' !in text && ')' !in target
    requires forall k :: 0 <= k < |rest| ==> rest[k] != '['
    ensures StripLinks("[" + text + "](" + target + ")" + rest) == text + rest
  {
    var s := "[" + text + "](" + target + ")" + rest;
    var j := 1 + |text|;
    var e := j + 3 + |target|;
    LeadingLink(s, text, target, rest);
    assert s[1..j] == text;
    assert forall k :: e <= k < |s| ==> s[k] == rest[k - e];
    StripLinksNoBracket(s, e);
    assert s[e..] == rest;
  }

  /** The match at the start of `[text](target)…` captures `text`. */
  lemma LeadingLink(s: string, text: string, target: string, rest: string)
    requires s == "[" + text + "](" + target + ")" + rest
    requires '\n' !in text && ']' !in text && ')' !in target
    ensures LinkTextAt(s, 0) == Some((1 + |text|, 4 + |text| + |target|))
  {
    var j := 1 + |text|;
    assert forall k :: 0 <= k < |text| ==> s[1 + k] == text[k];
    assert s[j] == ']' && s[j + 1] == '(';
    assert FindLinkMiddle(s, 1) == Some(j);
    assert s[1..j] == text;
    var after := s[j + 2..];
    assert forall k :: 0 <= k < |target| ==> after[k] == target[k];
    assert after[|target|] == ')';
    FirstWhere(after, Links.IsCloseParen, |target|);
  }

  // ---------------------------------------------------------------------------
  // Headings (scan.go:203-256)
  // ---------------------------------------------------------------------------

  /** `^(-+|=+)\s*$`: a run of one of `-` or `=`, then only white space. */
  predicate IsSetextUnderline(line: string) {
    var t := TrimRight(line, IsRegexpSpace);
    |t| > 0 && (t[0] == '-' || t[0] == '=') && forall k :: 0 <= k < |t| ==> t[k] == t[0]
  }

  /** A run of n >= 1 equal characters `-` or `=` followed by white space is
      an underline. */
  lemma {:induction false} SetextUnderlineShape(run: string, ws: string)
    requires |run| > 0 && (run[0] == '-' || run[0] == '=')
    requires forall k :: 0 <= k < |run| ==> run[k] == run[0]
    requires forall k :: 0 <= k < |ws| ==> IsRegexpSpace(ws[k])
    ensures IsSetextUnderline(run + ws)
    decreases |ws|
  {
    if |ws| == 0 {
      assert run + ws == run;
    } else {
      var ws' := ws[..|ws| - 1];
      SetextUnderlineShape(run, ws');
      assert (run + ws)[..|run + ws| - 1] == run + ws';
    }
  }

  /** Conversely, every underline is such a run followed by white space. */
  lemma SetextUnderlineSound(line: string) returns (run: string, ws: string)
    requires IsSetextUnderline(line)
    ensures line == run + ws
    ensures |run| > 0 && (run[0] == '-' || run[0] == '=') && forall k :: 0 <= k < |run| ==> run[k] == run[0]
    ensures forall k :: 0 <= k < |ws| ==> IsRegexpSpace(ws[k])
  {
    TrimRightPrefix(line, IsRegexpSpace);
    run := TrimRight(line, IsRegexpSpace);
    ws := line[|run|..];
    assert line == line[..|run|] + line[|run|..];
    forall k | 0 <= k < |ws| ensures IsRegexpSpace(ws[k]) {
      assert ws[k] == line[|run| + k];
    }
  }

  /** The base slug of a setext heading: the current line is an underline
      (not starting with `#`) below a non-empty line, whose right-trimmed
      text is slugged (extractAltHeading, scan.go:236-256). */
  function AltHeadingBase(previousLine: string, currentLine: string): Option<string> {
    if previousLine != "" && !HasPrefix(currentLine, "#") && IsSetextUnderline(currentLine) then
      Some(Anchors.GenerateAnchor(TrimRight(previousLine, IsBlank)))
    else None
  }

  /** The base slug of an ATX heading, links reduced to their text
      (extractHeading, scan.go:203-234). */
  function AtxHeadingBase(line: string): Option<string> {
    match Anchors.AtxHeadingText(line)
    case None => None
    case Some(heading) => Some(Anchors.GenerateAnchor(StripLinks(heading)))
  }
}
