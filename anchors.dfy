/** internal/markdown/anchor/anchor.go: the GitHub-style slug of a heading,
    the per-document `-N` disambiguation counter shared by every heading
    scanner, the ATX heading rule of the older scanners, and the anchor
    extractor with its fence toggle. */
module Anchors {
  import opened Results
  import opened Strings
  import opened Fences
  import FileSystem

  // ---------------------------------------------------------------------------
  // GenerateAnchor: lowercase, keep [a-z0-9 -], spaces to hyphens, collapse
  // runs of hyphens, trim trailing hyphens.
  // ---------------------------------------------------------------------------

  /** strings.ToLower on one character, for ASCII. */
  function LowerChar(c: char): char {
    if 'A' <= c <= 'Z' then (c as int + 32) as char else c
  }

  predicate IsUpperChar(c: char) {
    'A' <= c <= 'Z'
  }

  /** strings.ToLower, for ASCII: every capital becomes the same small
      letter, nothing else changes, so no capital is left and text without
      capitals is returned as it is. */
  function ToLower(s: string): (r: string)
    ensures |r| == |s|
    ensures forall i :: 0 <= i < |r| ==> !IsUpperChar(r[i])
    ensures forall i :: 0 <= i < |s| && !IsUpperChar(s[i]) ==> r[i] == s[i]
    ensures forall i :: 0 <= i < |s| && IsUpperChar(s[i]) ==> 'a' <= r[i] <= 'z' && r[i] as int - 'a' as int == s[i] as int - 'A' as int
    ensures (forall i :: 0 <= i < |s| ==> !IsUpperChar(s[i])) ==> r == s
  {
    seq(|s|, i requires 0 <= i < |s| => LowerChar(s[i]))
  }

  /** The characters the class `[^a-z0-9 -]` does not remove. */
  predicate IsKeptChar(c: char) {
    ('a' <= c <= 'z') || IsDigit(c) || c == ' ' || c == '-'
  }

  /** The characters a slug is made of. */
  predicate IsSlugChar(c: char) {
    ('a' <= c <= 'z') || IsDigit(c) || c == '-'
  }

  predicate AllSlugChars(s: string) {
    forall i :: 0 <= i < |s| ==> IsSlugChar(s[i])
  }

  predicate NoDoubleHyphen(s: string) {
    forall i :: 0 <= i < |s| - 1 ==> !(s[i] == '-' && s[i + 1] == '-')
  }

  /** A string GenerateAnchor can produce: slug characters only, no `--`, no
      trailing hyphen. */
  predicate IsWellFormedSlug(s: string) {
    AllSlugChars(s) && NoDoubleHyphen(s) && (|s| > 0 ==> s[|s| - 1] != '-')
  }

  /** Removing every character outside `[a-z0-9 -]`. */
  function KeepSlugChars(s: string): (r: string)
    ensures |r| <= |s|
    ensures forall i :: 0 <= i < |r| ==> IsKeptChar(r[i])
    decreases |s|
  {
    if |s| == 0 then ""
    else (if IsKeptChar(s[0]) then [s[0]] else "") + KeepSlugChars(s[1..])
  }

  /** strings.ReplaceAll(s, " ", "-"): no space is left, the hyphens of the
      result are exactly the spaces and hyphens of the input, every other
      character stays, and text without spaces is returned as it is. */
  function SpacesToHyphens(s: string): (r: string)
    ensures |r| == |s|
    ensures ' ' !in r
    ensures forall i :: 0 <= i < |s| ==> (r[i] == '-' <==> s[i] == ' ' || s[i] == '-')
    ensures forall i :: 0 <= i < |s| && s[i] != ' ' ==> r[i] == s[i]
    ensures ' ' !in s ==> r == s
  {
    seq(|s|, i requires 0 <= i < |s| => if s[i] == ' ' then '-' else s[i])
  }

  /** Replacing every maximal run of hyphens by one hyphen. */
  function CollapseHyphens(s: string): (r: string)
    ensures |r| <= |s|
    ensures |s| > 0 ==> |r| > 0 && r[0] == s[0]
    ensures |s| > 0 ==> r[|r| - 1] == s[|s| - 1]
    ensures NoDoubleHyphen(r)
    ensures AllSlugChars(s) ==> AllSlugChars(r)
    decreases |s|
  {
    if |s| <= 1 then s
    else if s[0] == '-' && s[1] == '-' then CollapseHyphens(s[1..])
    else [s[0]] + CollapseHyphens(s[1..])
  }

  predicate IsHyphen(c: char) {
    c == '-'
  }

  function TrimTrailingHyphens(s: string): string {
    TrimRight(s, IsHyphen)
  }

  /** GenerateAnchor (anchor.go:81-98). */
  function GenerateAnchor(heading: string): (r: string)
    ensures IsWellFormedSlug(r)
    ensures |r| <= |heading|
  {
    var lowered := ToLower(heading);
    var kept := KeepSlugChars(lowered);
    var hyphenated := SpacesToHyphens(kept);
    var collapsed := CollapseHyphens(hyphenated);
    var r := TrimTrailingHyphens(collapsed);
    TrimRightPrefix(collapsed, IsHyphen);
    assert AllSlugChars(hyphenated);
    assert AllSlugChars(r) by {
      forall i | 0 <= i < |r| ensures IsSlugChar(r[i]) {
        assert r[i] == collapsed[i];
      }
    }
    assert NoDoubleHyphen(r) by {
      forall i | 0 <= i < |r| - 1 ensures !(r[i] == '-' && r[i + 1] == '-') {
        assert r[i] == collapsed[i] && r[i + 1] == collapsed[i + 1];
      }
    }
    r
  }

  /** Text made only of kept characters passes the filter unchanged. */
  lemma {:induction false} KeepSlugCharsFixes(s: string)
    requires forall i :: 0 <= i < |s| ==> IsKeptChar(s[i])
    ensures KeepSlugChars(s) == s
    decreases |s|
  {
    if |s| > 0 {
      assert forall i :: 0 <= i < |s[1..]| ==> IsKeptChar(s[1..][i]) by {
        forall i | 0 <= i < |s[1..]| ensures IsKeptChar(s[1..][i]) { assert s[1..][i] == s[i + 1]; }
      }
      KeepSlugCharsFixes(s[1..]);
    }
  }

  lemma {:induction false} CollapseHyphensFixes(s: string)
    requires NoDoubleHyphen(s)
    ensures CollapseHyphens(s) == s
    decreases |s|
  {
    if |s| > 1 {
      assert !(s[0] == '-' && s[1] == '-');
      assert NoDoubleHyphen(s[1..]) by {
        forall i | 0 <= i < |s[1..]| - 1 ensures !(s[1..][i] == '-' && s[1..][i + 1] == '-') {
          assert s[1..][i] == s[i + 1] && s[1..][i + 1] == s[i + 2];
        }
      }
      CollapseHyphensFixes(s[1..]);
    }
  }

  /** The strings GenerateAnchor leaves unchanged are exactly the well-formed
      slugs. */
  lemma GenerateAnchorFixedPoints(s: string)
    ensures GenerateAnchor(s) == s <==> IsWellFormedSlug(s)
  {
    if IsWellFormedSlug(s) {
      assert ToLower(s) == s;
      KeepSlugCharsFixes(s);
      assert SpacesToHyphens(s) == s;
      CollapseHyphensFixes(s);
    }
  }

  /** GenerateAnchor is idempotent. */
  lemma GenerateAnchorIdempotent(s: string)
    ensures GenerateAnchor(GenerateAnchor(s)) == GenerateAnchor(s)
  {
    GenerateAnchorFixedPoints(GenerateAnchor(s));
  }

  lemma {:induction false} KeepSlugCharsConcat(a: string, b: string)
    ensures KeepSlugChars(a + b) == KeepSlugChars(a) + KeepSlugChars(b)
    decreases |a|
  {
    if |a| > 0 {
      assert (a + b)[1..] == a[1..] + b;
      KeepSlugCharsConcat(a[1..], b);
    } else {
      assert a + b == b;
    }
  }

  lemma LowerExample()
    ensures ToLower("A, B!") == "a, b!"
  {
    var r := ToLower("A, B!");
    assert r[0] == LowerChar('A') == 'a' && r[3] == LowerChar('B') == 'b';
  }

  lemma KeepExample()
    ensures KeepSlugChars("a, b!") == "a b"
  {
    assert KeepSlugChars("!") == "!"[1..] == "";
    assert KeepSlugChars("b!") == "b";
    assert KeepSlugChars(" b!") == " b";
    assert KeepSlugChars(", b!") == " b";
  }

  lemma CollapseExample()
    ensures CollapseHyphens("a-b") == "a-b"
  {
    assert CollapseHyphens("b") == "b";
    assert CollapseHyphens("-b") == "-b";
  }

  /** Punctuation vanishes, capitals are lowered and words are joined by one
      hyphen. */
  lemma GenerateAnchorExample()
    ensures GenerateAnchor("A, B!") == "a-b"
  {
    LowerExample();
    KeepExample();
    assert SpacesToHyphens("a b") == "a-b";
    CollapseExample();
    assert TrimTrailingHyphens("a-b") == "a-b";
  }

  // ---------------------------------------------------------------------------
  // Disambiguation: the k-th heading (counting from 0) with base slug b is
  // emitted as b when k = 0 and as b-k otherwise. Every heading scanner of
  // the repository repeats this code.
  // ---------------------------------------------------------------------------

  /** `fmt.Sprintf("%s-%d", base, count)` when `count > 0`, else `base`. */
  function Suffixed(base: string, count: nat): string {
    if count > 0 then base + "-" + NatToString(count) else base
  }

  /** How many times `x` occurs in `xs`. */
  function Occurrences(xs: seq<string>, x: string): nat
    decreases |xs|
  {
    if |xs| == 0 then 0
    else Occurrences(xs[..|xs| - 1], x) + (if xs[|xs| - 1] == x then 1 else 0)
  }

  /** The anchors emitted for a sequence of base slugs. */
  function Disambiguate(bases: seq<string>): (r: seq<string>)
    ensures |r| == |bases|
    decreases |bases|
  {
    if |bases| == 0 then []
    else
      var prior := bases[..|bases| - 1];
      Disambiguate(prior) + [Suffixed(bases[|bases| - 1], Occurrences(prior, bases[|bases| - 1]))]
  }

  /** The k-th anchor is its base slug suffixed with the number of earlier
      headings that had the same base slug. */
  lemma {:induction false} DisambiguateAt(bases: seq<string>, k: nat)
    requires k < |bases|
    ensures Disambiguate(bases)[k] == Suffixed(bases[k], Occurrences(bases[..k], bases[k]))
    decreases |bases|
  {
    var prior := bases[..|bases| - 1];
    if k < |bases| - 1 {
      DisambiguateAt(prior, k);
      assert prior[..k] == bases[..k];
    }
  }

  /** The suffixes the examples below need. */
  lemma SuffixedExamples()
    ensures Suffixed("foo", 0) == "foo" && Suffixed("foo-1", 0) == "foo-1"
    ensures Suffixed("foo", 1) == "foo-1" && Suffixed("foo", 2) == "foo-2"
  {
    assert NatToString(1) == [DecimalDigit(1)] == "1";
    assert NatToString(2) == [DecimalDigit(2)] == "2";
  }

  /** The emitted anchors need not be distinct: a heading `foo-1` followed by
      two `foo` headings gives `foo-1` twice. */
  lemma DisambiguateNotInjective()
    ensures Disambiguate(["foo-1", "foo", "foo"]) == ["foo-1", "foo", "foo-1"]
  {
    var bases := ["foo-1", "foo", "foo"];
    SuffixedExamples();
    assert "foo-1" != "foo" by { assert |"foo-1"| != |"foo"|; }
    assert bases[..1] == ["foo-1"] && bases[..2] == ["foo-1", "foo"];
    assert ["foo-1"][..0] == [];
    assert Occurrences(bases[..2], "foo") == 1 by {
      assert bases[..2][..1] == ["foo-1"];
    }
    DisambiguateAt(bases, 0);
    DisambiguateAt(bases, 1);
    DisambiguateAt(bases, 2);
  }

  /** Repeated headings are numbered from 1 on. */
  lemma DisambiguateRepeats()
    ensures Disambiguate(["foo", "foo", "foo"]) == ["foo", "foo-1", "foo-2"]
  {
    var bases := ["foo", "foo", "foo"];
    SuffixedExamples();
    assert bases[..1] == ["foo"] && bases[..2] == ["foo", "foo"];
    assert ["foo"][..0] == [];
    assert Occurrences(bases[..2], "foo") == 2 by {
      assert bases[..2][..1] == ["foo"];
    }
    DisambiguateAt(bases, 0);
    DisambiguateAt(bases, 1);
    DisambiguateAt(bases, 2);
  }

  /** Suffixing keeps a slug's character set. */
  lemma SuffixedSlugChars(base: string, count: nat)
    requires AllSlugChars(base)
    ensures AllSlugChars(Suffixed(base, count))
  {
    var r := Suffixed(base, count);
    if count > 0 {
      var digits := NatToString(count);
      forall i | 0 <= i < |r| ensures IsSlugChar(r[i]) {
        if i > |base| { assert r[i] == digits[i - |base| - 1]; }
      }
    }
  }

  /** Every anchor emitted for GenerateAnchor bases is made of `[a-z0-9-]`. */
  lemma {:induction false} DisambiguateSlugChars(bases: seq<string>)
    requires forall i :: 0 <= i < |bases| ==> AllSlugChars(bases[i])
    ensures forall i :: 0 <= i < |bases| ==> AllSlugChars(Disambiguate(bases)[i])
  {
    forall i | 0 <= i < |bases| ensures AllSlugChars(Disambiguate(bases)[i]) {
      DisambiguateAt(bases, i);
      SuffixedSlugChars(bases[i], Occurrences(bases[..i], bases[i]));
    }
  }

  /** `anchorCount[key]` for a Go map, where a missing key reads as 0. */
  function Count(counts: map<string, nat>, key: string): nat {
    if key in counts then counts[key] else 0
  }

  /** The counter map holds, for every base slug, how often it was seen. */
  ghost predicate Tracks(counts: map<string, nat>, bases: seq<string>) {
    forall key :: Count(counts, key) == Occurrences(bases, key)
  }

  /** One heading with base slug `base`: append its disambiguated anchor, then
      increment `anchorCount[base]`. */
  function Record(anchors: seq<string>, counts: map<string, nat>, base: string): (seq<string>, map<string, nat>) {
    var count := Count(counts, base);
    (anchors + [Suffixed(base, count)], counts[base := count + 1])
  }

  /** Recording keeps the anchors equal to the disambiguated bases and the
      counter map equal to the occurrence counts. */
  lemma RecordStep(anchors: seq<string>, counts: map<string, nat>, bases: seq<string>, base: string)
    requires anchors == Disambiguate(bases) && Tracks(counts, bases)
    ensures Record(anchors, counts, base).0 == Disambiguate(bases + [base])
    ensures Tracks(Record(anchors, counts, base).1, bases + [base])
  {
    var bases' := bases + [base];
    assert bases'[..|bases'| - 1] == bases;
    var counts' := Record(anchors, counts, base).1;
    forall key ensures Count(counts', key) == Occurrences(bases', key) {
      assert Occurrences(bases', key) == Occurrences(bases, key) + (if base == key then 1 else 0);
    }
  }

  lemma TracksEmpty()
    ensures Tracks(map[], [])
  {
  }

  // ---------------------------------------------------------------------------
  // The ATX heading rule: `^#{1,6} ` matches, then `^#+[ \t]+` is removed and
  // trailing blanks are trimmed (anchor.go:48-57; identical in check.go and
  // scan.go).
  // ---------------------------------------------------------------------------

  /** The length of the leading run of `#`. */
  function LeadingHashes(line: string): (n: nat)
    ensures n <= |line|
    ensures forall i :: 0 <= i < n ==> line[i] == '#'
    ensures n < |line| ==> line[n] != '#'
    decreases |line|
  {
    if |line| > 0 && line[0] == '#' then 1 + LeadingHashes(line[1..]) else 0
  }

  /** The regular expression `^#{1,6} `. */
  predicate MatchesAtxPrefix(line: string) {
    var n := LeadingHashes(line);
    1 <= n <= 6 && n < |line| && line[n] == ' '
  }

  /** `^#+[ \t]+` replaced by the empty string. */
  function StripHashPrefix(line: string): string {
    var n := LeadingHashes(line);
    if 1 <= n < |line| && IsBlank(line[n]) then TrimLeft(line[n..], IsBlank) else line
  }

  /** The text of an ATX heading line, or None when the line is not one. */
  function AtxHeadingText(line: string): Option<string> {
    if HasPrefix(line, "#") && MatchesAtxPrefix(line) then Some(TrimRight(StripHashPrefix(line), IsBlank))
    else None
  }

  function Hashes(n: nat): (r: string)
    ensures |r| == n && forall i :: 0 <= i < n ==> r[i] == '#'
  {
    seq(n, i => '#')
  }

  /** A line of n hashes followed by text not starting with `#` is an ATX
      heading exactly when 1 <= n <= 6 and the text starts with a space; its
      heading text is the rest with surrounding blanks removed. */
  lemma {:induction false} AtxHeadingShape(n: nat, rest: string)
    requires |rest| > 0 ==> rest[0] != '#'
    ensures AtxHeadingText(Hashes(n) + rest).Some? <==> 1 <= n <= 6 && |rest| > 0 && rest[0] == ' '
    ensures AtxHeadingText(Hashes(n) + rest).Some? ==>
              AtxHeadingText(Hashes(n) + rest).value == TrimRight(TrimLeft(rest, IsBlank), IsBlank)
  {
    var line := Hashes(n) + rest;
    LeadingHashesOf(n, rest);
    assert line[n..] == rest;
    if n > 0 {
      assert line[..1] == "#";
    }
  }

  lemma {:induction false} LeadingHashesOf(n: nat, rest: string)
    requires |rest| > 0 ==> rest[0] != '#'
    ensures LeadingHashes(Hashes(n) + rest) == n
    decreases n
  {
    if n > 0 {
      assert (Hashes(n) + rest)[1..] == Hashes(n - 1) + rest;
      LeadingHashesOf(n - 1, rest);
    } else {
      assert Hashes(0) + rest == rest;
    }
  }

  // ---------------------------------------------------------------------------
  // Extract (anchor.go:19-78): the older heading loop.
  // ---------------------------------------------------------------------------

  /** The base slug of an ATX heading line. */
  function HeadingBase(line: string): Option<string> {
    match AtxHeadingText(line)
    case Some(heading) => Some(GenerateAnchor(heading))
    case None => None
  }

  /** The base slug of a line as a list of zero or one elements, the form
      OutsideConcat collects. */
  function HeadingBases(line: string, lineNumber: nat): seq<string> {
    match HeadingBase(line)
    case Some(base) => [base]
    case None => []
  }

  /** What one line contributes, in the terms of Extract's loop body. */
  lemma HeadingBasesOfLine(line: string, lineNumber: nat)
    ensures HeadingBases(line, lineNumber) ==
      if HasPrefix(line, "#") && MatchesAtxPrefix(line)
      then [GenerateAnchor(TrimRight(StripHashPrefix(line), IsBlank))] else []
  {
  }

  /** The anchors Extract returns for a file with these lines. */
  function ExtractSpec(lines: seq<string>): seq<string> {
    Disambiguate(OutsideConcat(lines, HeadingBases))
  }

  /** What Extract returns for a file system entry. */
  function ExtractResult(entry: FileSystem.Entry): Outcome<seq<string>, FileSystem.FsError> {
    match FileSystem.ReadLines(entry)
    case Err(e) => Err(e)
    case Ok(lines) => Ok(ExtractSpec(lines))
  }

  /** Extract emits one anchor per ATX heading line outside fences: the k-th
      anchor comes from a heading line outside every fence, and it is that
      heading's slug disambiguated by its earlier occurrences. */
  lemma ExtractSpecCorrect(lines: seq<string>, k: nat) returns (i: nat)
    requires k < |ExtractSpec(lines)|
    ensures var bases := OutsideConcat(lines, HeadingBases);
      |ExtractSpec(lines)| == |bases| &&
      ExtractSpec(lines)[k] == Suffixed(bases[k], Occurrences(bases[..k], bases[k]))
    ensures i < |lines| && OutsideFence(lines, i)
    ensures HeadingBase(lines[i]) == Some(OutsideConcat(lines, HeadingBases)[k])
  {
    var bases := OutsideConcat(lines, HeadingBases);
    DisambiguateAt(bases, k);
    var j;
    i, j := OutsideConcatOrigin(lines, HeadingBases, k);
  }

  /** Conversely, every ATX heading line outside fences yields an anchor:
      the one after the anchors of the lines before it, made from its own
      base slug. */
  lemma ExtractSpecComplete(lines: seq<string>, i: nat)
    requires i < |lines| && OutsideFence(lines, i) && HeadingBase(lines[i]).Some?
    ensures var bases := OutsideConcat(lines, HeadingBases);
      var k := |OutsideConcat(lines[..i], HeadingBases)|;
      k < |ExtractSpec(lines)| && |ExtractSpec(lines)| == |bases| &&
      bases[k] == HeadingBase(lines[i]).value &&
      ExtractSpec(lines)[k] == Suffixed(bases[k], Occurrences(bases[..k], bases[k]))
  {
    OutsideConcatAt(lines, HeadingBases, i, 0);
    DisambiguateAt(OutsideConcat(lines, HeadingBases), |OutsideConcat(lines[..i], HeadingBases)|);
  }

  /** The heading step of Extract's loop (anchor.go:48-70): an ATX heading
      line records its slug; any other line changes nothing. Either way the
      anchors and the counter stay in step with the bases. */
  method ExtractHeadingLine(anchors: seq<string>, anchorCount: map<string, nat>, line: string,
                            ghost lineNumber: nat, ghost bases: seq<string>)
    returns (anchors': seq<string>, anchorCount': map<string, nat>)
    requires anchors == Disambiguate(bases) && Tracks(anchorCount, bases)
    ensures anchors' == Disambiguate(bases + HeadingBases(line, lineNumber))
    ensures Tracks(anchorCount', bases + HeadingBases(line, lineNumber))
  {
    HeadingBasesOfLine(line, lineNumber);
    anchors', anchorCount' := anchors, anchorCount;
    if HasPrefix(line, "#") {
      if !MatchesAtxPrefix(line) {
        assert bases + HeadingBases(line, lineNumber) == bases;
        return;
      }
      var heading := StripHashPrefix(line);
      heading := TrimRight(heading, IsBlank);
      var anchor := GenerateAnchor(heading);
      RecordStep(anchors, anchorCount, bases, anchor);
      anchors', anchorCount' := Record(anchors, anchorCount, anchor).0, Record(anchors, anchorCount, anchor).1;
    } else {
      assert bases + HeadingBases(line, lineNumber) == bases;
    }
  }

  /** Extract (anchor.go:19-78): read the file and collect its anchors. */
  method Extract(entry: FileSystem.Entry) returns (r: Outcome<seq<string>, FileSystem.FsError>)
    ensures r == ExtractResult(entry)
  {
    var read := FileSystem.ReadLines(entry);
    if read.Err? {
      return Err(read.error);
    }
    var lines := read.value;
    var anchors: seq<string> := [];
    var inCodeBlock := false;
    var anchorCount: map<string, nat> := map[];
    ghost var bases: seq<string> := [];
    for n := 0 to |lines|
      invariant inCodeBlock <==> FenceCount(lines[..n]) % 2 == 1
      invariant bases == OutsideConcat(lines[..n], HeadingBases)
      invariant anchors == Disambiguate(bases) && Tracks(anchorCount, bases)
    {
      var line := lines[n];
      OutsideConcatCases(lines, HeadingBases, n);
      if HasPrefix(line, "```") {
        inCodeBlock := !inCodeBlock;
        continue;
      }
      if inCodeBlock {
        continue;
      }
      anchors, anchorCount := ExtractHeadingLine(anchors, anchorCount, line, n + 1, bases);
      bases := bases + HeadingBases(line, n + 1);
    }
    assert lines[..|lines|] == lines;
    return Ok(anchors);
  }

  method Contains(slice: seq<string>, item: string) returns (found: bool)
    ensures found <==> item in slice
  {
    for i := 0 to |slice|
      invariant item !in slice[..i]
    {
      if slice[i] == item {
        return true;
      }
    }
    return false;
  }
}
