# relcheck: the Markdown link and anchor checker, modelled in Dafny

relcheck checks relative links in Markdown documents. For every link such as
`[text](./other.md#section)` it checks two things: that the target file
exists, and, when the link has a fragment, that the fragment is one of the
heading anchors of the target. It derives those anchors with GitHub's slug
rule plus a `-N` suffix for repeated headings.

The repository carries several revisions of this logic. Each is modelled as
written, and a helper is shared only where the code is identical.

- `internal/markdown/scan/scan.go` is the newest scanner (modules `Scan` and
  `ScanPatterns`):
  - It runs a one-pass state machine over the lines of a file. The state is
    three variables: the HTML-comment flag, the code-block flag and the
    previous line.
  - Each line is, in this order of precedence: an HTML comment line, a fence marker,
    a line inside a code block, a setext underline, an ATX heading, or a text
    line.
  - Only text lines are searched for links, with the pattern
    `\]\(\.[^)"']*(?:"[^"]*"|'[^']*')?\)`.
  - Headings give anchors, counted by one shared counter.
  - `File` memoises results per path in `scanCache`. This is modelled as the
    class `Scan.ScanCache`, whose field is a `map`.
- `internal/markdown/anchor/anchor.go` (module `Anchors`) holds three parts:
  - `GenerateAnchor`, as a pure pipeline of string functions;
  - the disambiguation counter, proved against the reference function
    `Disambiguate`;
  - `Extract`, the older heading loop with its "three backticks at the start
    of the line" fence rule.
- `internal/markdown/link/link.go` (module `Links`) holds the `#` splitter,
  the pattern `\]\(\.[^)]*\)`, the link loop of `Extract`, and `DecodeURL`.
- `internal/check/check.go` (module `Check`) holds the older checker:
  - Its link extractor uses link.go's pattern. `Check.LineRefsAgree` proves it
    finds the same links.
  - Its `getMarkdownAnchors` is `anchor.Extract` with `GenerateAnchor` written
    inline, so it is modelled by `Anchors.Extract`.
  - Its `splitLinkAndAnchor` and `contains` are identical to link.go's and
    anchor.go's, and are modelled as `Links.SplitLinkAndAnchor` and
    `Anchors.Contains`.
  - `RelativeLinksAndAnchors` folds the links into an exit code.
- `main.go` (module `MainProgram`) is the first revision:
  - Its link pattern `\]\((\.\.?/[^)]*)\)` takes only `./` and `../` URLs.
  - Its heading rule takes everything after the first space of any line that
    starts with `#`.
  - Its `main` loop classifies links like check.go.
- The per-link decision and the exit code shared by check.go and main.go are
  in module `Validation`. Every link is exactly one of: skipped, broken (file
  not found), broken (anchor not found), or valid.
- `internal/cli/args.go` and `internal/cli/cli.go` (module `Cli`):
  - `ParseArgs` is a fold over the arguments. The two copies are identical.
  - `Run` dispatches on the command.

The other modules are supporting definitions:

- `Results` holds Option and Outcome.
- `Strings` holds the few `strings` package functions used.
- `FileSystem` is the file system as the code sees it, as a map from path to
  entry.
- `Fences` holds the older fence rule and the "collect from lines outside
  fences" reference function.
- `Matching` models `FindAllStringIndex` for a pattern with at most one match
  per start position.
- `Sequences` holds small sequence lemmas.

Every imperative loop is a Dafny method with loop invariants. Its `ensures`
ties its result to a reference function, and lemmas prove what that function
promises.

Some behaviours of the code are easy to expect otherwise; the model follows
the code:

- scan.go takes a setext heading from the line just before the underline,
  whatever that line was: a comment, fence or code line above `---` becomes a
  heading too. See `Scan.SetextUsesPreviousLine`.
- In scan.go a fence marker is three backticks after leading blanks with no
  second run of three backticks later on the line, so six backticks are not a
  marker. See `ScanPatterns.MarkerExamples`.
- An empty path is not replaced by `.`: `#sec` splits to `("", "sec")`. See
  `Links.SplitFragmentOnly`.
- None of scan.go, check.go or main.go checks `L<digits>` fragments against a
  line count, so the model has no such rule; `LineCount` is only computed.

## Model

| member | source | states |
|---|---|---|
| Anchors.GenerateAnchor | internal/markdown/anchor/anchor.go:81-98 | the slug holds only `[a-z0-9-]`, never holds `--`, never ends with `-`, and is never longer than the heading |
| Anchors.ToLower | internal/markdown/anchor/anchor.go:83 | every ASCII capital becomes the same small letter and nothing else changes: no capital is left, the length is kept, and text without capitals is returned as it is |
| Anchors.SpacesToHyphens | internal/markdown/anchor/anchor.go:89 | no space is left; the hyphens of the result are exactly the spaces and hyphens of the input; every other character stays, and text without spaces is returned as it is |
| Anchors.KeepSlugChars | internal/markdown/anchor/anchor.go:86 | removing `[^a-z0-9 -]` leaves only kept characters and never lengthens the text (underscores and punctuation go) |
| Anchors.CollapseHyphens | internal/markdown/anchor/anchor.go:92 | collapsing `-+` leaves no `--`, keeps the first and last character and keeps a slug's character set |
| Anchors.KeepSlugCharsConcat | internal/markdown/anchor/anchor.go:86 | the character filter distributes over concatenation |
| Anchors.KeepSlugCharsFixes | internal/markdown/anchor/anchor.go:86 | text made only of `[a-z0-9 -]` passes the filter unchanged |
| Anchors.CollapseHyphensFixes | internal/markdown/anchor/anchor.go:92 | text with no `--` is left unchanged by the collapse |
| Anchors.GenerateAnchorFixedPoints | internal/markdown/anchor/anchor.go:81-98 | GenerateAnchor leaves a string unchanged exactly when it is a well-formed slug |
| Anchors.GenerateAnchorIdempotent | internal/markdown/anchor/anchor.go:81-98 | slugging a slug changes nothing |
| Anchors.GenerateAnchorExample | internal/markdown/anchor/anchor.go:83-95 | `A, B!` becomes `a-b`: lowered, punctuation dropped, words joined by one hyphen |
| Anchors.LowerExample | internal/markdown/anchor/anchor.go:83 | `A, B!` lowers to `a, b!` |
| Anchors.KeepExample | internal/markdown/anchor/anchor.go:86 | the filter turns `a, b!` into `a b` |
| Anchors.CollapseExample | internal/markdown/anchor/anchor.go:92 | a single hyphen survives the collapse |
| Anchors.DisambiguateAt | internal/markdown/anchor/anchor.go:61-69 | the k-th anchor is its base slug, suffixed `-n` where n > 0 is the number of earlier headings with that base |
| Anchors.Disambiguate | internal/markdown/anchor/anchor.go:61-69 | one anchor per heading, in order |
| Anchors.SuffixedExamples | internal/markdown/anchor/anchor.go:62-66 | a count of 0 leaves the base alone; a count n > 0 appends `-n` |
| Anchors.SuffixedSlugChars | internal/markdown/anchor/anchor.go:62-66 | the `-n` suffix keeps a slug within `[a-z0-9-]` |
| Anchors.DisambiguateRepeats | internal/markdown/anchor/anchor.go:61-69 | three `foo` headings give `foo`, `foo-1`, `foo-2` |
| Anchors.DisambiguateNotInjective | internal/markdown/anchor/anchor.go:61-69 | `foo-1`, `foo`, `foo` give `foo-1`, `foo`, `foo-1`: anchors need not be distinct |
| Anchors.DisambiguateSlugChars | internal/markdown/anchor/anchor.go:61-69 | suffixing keeps every anchor within `[a-z0-9-]` |
| Anchors.RecordStep | internal/markdown/anchor/anchor.go:61-69 | appending `base` or `base-count` and incrementing `anchorCount[base]` keeps the anchors equal to the disambiguated bases and the map equal to the occurrence counts |
| Anchors.AtxHeadingShape | internal/markdown/anchor/anchor.go:48-57 | n hashes and a rest not starting with `#` form a heading exactly when 1 <= n <= 6 and the rest starts with a space (seven hashes or a tab are rejected); the text is the rest with blanks trimmed |
| Anchors.LeadingHashes | internal/markdown/anchor/anchor.go:50-55 | the leading run of `#`: all hashes, within the line, followed by a non-`#` or the line's end |
| Anchors.ExtractSpecCorrect | internal/markdown/anchor/anchor.go:32-71 | the k-th anchor comes from a heading line outside every fence, and is that heading's slug disambiguated by its earlier occurrences |
| Anchors.ExtractSpecComplete | internal/markdown/anchor/anchor.go:32-69 | conversely, every ATX heading line outside fences yields an anchor: the one right after those of the earlier lines, made from its own slug and suffixed by its earlier occurrences |
| Anchors.ExtractHeadingLine | internal/markdown/anchor/anchor.go:48-70 | an ATX heading line appends its disambiguated slug and counts it; any other line leaves anchors and counter as they are; either way they stay equal to the disambiguated bases and their occurrence counts |
| Anchors.Extract | internal/markdown/anchor/anchor.go:19-78 | open and read errors are returned; otherwise the anchors are the disambiguated slugs of the ATX headings outside fences, in order |
| Anchors.Contains | internal/markdown/anchor/anchor.go:101-109 | true exactly when some element equals the item, case-sensitively |
| Fences.OutsideConcatOrigin | internal/markdown/link/link.go:43-53 | everything the older line loops collect comes from a line that is not a fence and follows an even number of fence lines |
| Fences.OutsideConcatPrefix | internal/markdown/link/link.go:43-53 | what the first m lines yield is a prefix of what the whole file yields |
| Fences.OutsideConcatAt | internal/markdown/link/link.go:43-53 | every line outside fences has all its items collected, right after the items of the lines before it |
| Links.SplitLinkAndAnchorShape | internal/markdown/link/link.go:84-91 | without `#` the result is `(s, "")`; with `#` the path holds no `#` and path, `#`, anchor rebuild `s` |
| Links.SplitJoin | internal/markdown/link/link.go:84-91 | splitting undoes joining a `#`-free path and any anchor, which may itself contain `#` |
| Links.SplitFragmentOnly | internal/markdown/link/link.go:84-91 | `#sec` gives an empty path and `sec` |
| Links.SimpleMatchSound | internal/markdown/link/link.go:23 | every reported match is `](.`, then no `)`, then `)` |
| Links.SimpleMatchComplete | internal/markdown/link/link.go:23 | every match of the pattern at a position is the one reported |
| Links.SimpleMatchesSound | internal/markdown/link/link.go:56 | every match found in a line is a match of the pattern |
| Links.SimpleMatches | internal/markdown/link/link.go:56 | every match found lies within the line and spans at least `](.)` |
| Matching.FindAll | internal/markdown/link/link.go:56 | the matches found are the pattern's own matches, in order and non-overlapping |
| Matching.FindAllLeftmost | internal/markdown/link/link.go:56 | no match starts before the first one found, between two found ones, or after the last one |
| Links.MatchLinkShape | internal/markdown/link/link.go:58-72 | a match's link sits right after `](` at its 1-based column, starts with `.`, holds no `)`, is closed by `)`, and its path and anchor are its split |
| Links.LineLinksShape | internal/markdown/link/link.go:56-73 | every link of a line satisfies the same |
| Links.ExtractLinksOrigin | internal/markdown/link/link.go:39-74 | each link's line is within the file and outside fences, and the link fits that line |
| Links.MatchedLinks | internal/markdown/link/link.go:56-73 | the inner loop appends one link per match, left to right |
| Links.Extract | internal/markdown/link/link.go:26-81 | open and read errors are returned; otherwise the links of every line outside fences, in order |
| Links.DecodeURL | internal/markdown/link/link.go:94-101 | an error exactly when unescaping fails, and then the path is empty; otherwise the decoded text |
| ScanPatterns.IsHTMLCommentLine | internal/markdown/scan/scan.go:67-88 | a line is skipped exactly when a comment is open or the trimmed line starts with `<!--`; the comment stays open exactly when the line is skipped and has no `-->` |
| ScanPatterns.MarkerShape | internal/markdown/scan/scan.go:156-172 | after leading blanks, three backticks make a marker exactly when the rest holds no three backticks |
| ScanPatterns.MarkerExamples | internal/markdown/scan/scan.go:156-172 | six backticks are not a marker; an indented ```` ```go ```` is |
| ScanPatterns.ScanMatchSound | internal/markdown/scan/scan.go:25 | every reported match is `](.`, letters other than `)`, `"` and `'`, an optional quoted title, then `)` |
| ScanPatterns.ScanMatchComplete | internal/markdown/scan/scan.go:25 | every match of the pattern at a position is the one reported |
| ScanPatterns.ScanMatchesSound | internal/markdown/scan/scan.go:175 | every match found in a line is a match of the pattern |
| ScanPatterns.ScanMatches | internal/markdown/scan/scan.go:175 | every match found lies within the line, spans at least `](.)` and has `.` right after `](` |
| ScanPatterns.UrlTextPrefix | internal/markdown/scan/scan.go:184-188 | the URL is a prefix of the raw text with no quote, and equals the raw text when it has none |
| ScanPatterns.UrlText | internal/markdown/scan/scan.go:184-188 | the URL of a raw text starting with `.` is non-empty, no longer than the raw text, and starts with `.` |
| ScanPatterns.NoParenBeforeTitle | internal/markdown/scan/scan.go:184-188 | when the text before the first quote holds no stop character, the URL holds no `)` |
| ScanPatterns.UrlTextHasNoParen | internal/markdown/scan/scan.go:179-188 | the URL of a match holds no `)` |
| ScanPatterns.StripLinksNoBracket | internal/markdown/scan/scan.go:220 | heading text without `[` is left alone |
| ScanPatterns.StripLinksPrefix | internal/markdown/scan/scan.go:220 | `[label](target)` at the start of a heading is reduced to `label` |
| ScanPatterns.StripLinksFrom | internal/markdown/scan/scan.go:220 | replacing each `[label](target)` by its label never lengthens the heading |
| ScanPatterns.LinkTextAt | internal/markdown/scan/scan.go:29 | a match at i starts with `[`, and its label ends at least one character before `](` and `)` |
| ScanPatterns.LeadingLink | internal/markdown/scan/scan.go:29 | on `[text](target)…`, with no `]` or line break in text and no `)` in target, the match captures exactly `text` and ends after the `)` |
| ScanPatterns.SetextUnderlineShape | internal/markdown/scan/scan.go:28 | a run of `-` or of `=` followed by white space matches `^(-+\|=+)\s*$` |
| ScanPatterns.SetextUnderlineSound | internal/markdown/scan/scan.go:28 | conversely, every line accepted as an underline is a non-empty run of one of `-` or `=` followed only by white space |
| Scan.MatchLinkShape | internal/markdown/scan/scan.go:177-199 | a match's link has column = start + 3, pointing at the `.`; its URL starts with `.` and holds no `)` or quote; path and anchor are its split; LineContent is the line |
| Scan.LineLinksShape | internal/markdown/scan/scan.go:175-200 | every link of a line satisfies the same |
| Scan.LineLinksIncrease | internal/markdown/scan/scan.go:175-177 | the links of a line come in strictly increasing column order |
| Scan.ExtractLink | internal/markdown/scan/scan.go:174-201 | appends exactly the links of the line's matches to the list |
| Scan.ExtractAltHeading | internal/markdown/scan/scan.go:236-256 | reports a heading exactly for an underline not starting with `#` below a non-empty line; then records the slug of the right-trimmed previous line, else changes nothing |
| Scan.ExtractHeading | internal/markdown/scan/scan.go:203-234 | reports a heading exactly for an ATX line; then records the slug of its text with links reduced to their labels, else changes nothing |
| Scan.FlipsOnFence | internal/markdown/scan/scan.go:107-121 | the code-block flag changes exactly on a fence-marker line |
| Scan.CommentWinsOverFence | internal/markdown/scan/scan.go:107-121 | a comment-skipped line is classified as a comment and never toggles the code block |
| Scan.ScanLine | internal/markdown/scan/scan.go:104-142 | one line updates the flags and previous line as the state machine says; only a text line adds links; only a heading adds an anchor; anchors and counter stay in step with the bases |
| Scan.ScanFile | internal/markdown/scan/scan.go:91-154 | a scanner error gives an error; otherwise the links of the text lines, the disambiguated heading slugs, and the number of lines |
| Scan.LinksSource | internal/markdown/scan/scan.go:129-141 | every link comes from a text line: never from a comment, fence, code or heading line |
| Scan.LinksOrigin | internal/markdown/scan/scan.go:129-141 | every link's line number is that of its text line, and the link fits that line |
| Scan.LinksWithin | internal/markdown/scan/scan.go:98-104 | every link's line lies in `1..LineCount` |
| Scan.LinksOrdered | internal/markdown/scan/scan.go:103-143 | links come in reading order: by line, then by column |
| Scan.BasesOrigin | internal/markdown/scan/scan.go:129-139 | every anchor base comes from a setext or ATX heading line with that base |
| Scan.AnchorsOrigin | internal/markdown/scan/scan.go:129-139 | the k-th anchor is its heading's base suffixed by the count of earlier equal bases, over both heading kinds |
| Scan.CodeBlockParity | internal/markdown/scan/scan.go:116-121 | the code block is open exactly after an odd number of fence-marker lines |
| Scan.SetextUsesPreviousLine | internal/markdown/scan/scan.go:110-133 | an underline below any non-empty line, even a comment, fence or code line, makes that line a heading |
| Scan.Uncached | internal/markdown/scan/scan.go:38-59 | a result is returned only for a readable regular file: a missing path, a directory, an open error and a scan error are errors |
| Scan.ScanCache.constructor | internal/markdown/scan/scan.go:22 | the cache starts empty |
| Scan.ScanCache.File | internal/markdown/scan/scan.go:32-65 | a hit returns the stored result and leaves the cache unchanged; a miss returns the uncached result and stores it only on success, so errors are never cached; on a consistent cache every answer equals the uncached one and the cache stays consistent |
| Check.LineRefsAgree | internal/check/check.go:186-197 | check.go finds the same links (URL, line, column) as link.go |
| Check.LineRefsShape | internal/check/check.go:186-197 | every link sits right after `](` at column start + 3, starts with `.`, holds no `)` and is closed by `)` |
| Check.MatchRefShape | internal/check/check.go:188-197 | the link built from one match sits right after `](` at column start + 3, starts with `.` and holds no `)` |
| Check.MatchedLinks | internal/check/check.go:186-198 | the inner loop appends one link per match, left to right |
| Check.ExtractRelativeLinks | internal/check/check.go:155-206 | open and read errors are returned; otherwise the links of every line outside fences |
| Check.GetLineContent | internal/check/check.go:290-308 | the n-th line, 1-based, when it exists; otherwise an error (also main.go:301-319, which differs only in error text) |
| Check.CheckLinks | internal/check/check.go:65-118 | `brokenLinksFound` is whether some link is broken and `validLinksCount` is the number of valid links |
| Check.RelativeLinksAndAnchors | internal/check/check.go:24-149 | the exit code is 1 exactly when some file is missing, fails extraction or has a broken link, else `exitcode.Success` |
| Validation.ValidExactly | internal/check/check.go:66-117 | a link is valid exactly when its path decodes, its target `Join(Dir(file), path)` exists, and its anchor is empty or occurs, case-sensitively, among the target's anchors when those can be read |
| Validation.MissingTargetIsBroken | internal/check/check.go:81-93 | a missing target is broken whatever the anchor, and the target's anchors are not consulted |
| Validation.EmptyAnchorIsValid | internal/check/check.go:115-117 | a link with an empty anchor to an existing target is valid |
| Validation.AnyBrokenExactly | internal/check/check.go:61-118 | the broken flag is set exactly when some link is broken |
| Validation.CountValid | internal/check/check.go:62 | the valid count never exceeds the number of links |
| Validation.CountValidBound | internal/check/check.go:112-117 | every link is counted exactly when every link is valid |
| Validation.ExitCodeExactly | internal/check/check.go:28-148 | the exit code is 1 exactly when some file fails, and 0 exactly when none does |
| Validation.SkippedNeverFails | internal/check/check.go:69-74 | skipped links never make a file fail |
| MainProgram.RelMatchSound | main.go:167 | every reported match is `](`, a URL starting with `./` or `../` and holding no `)`, then `)` |
| MainProgram.RelMatchComplete | main.go:167 | every match of the pattern at a position is the one reported |
| MainProgram.RelMatchesSound | main.go:198 | every match found in a line is a match of the pattern |
| MainProgram.RelMatches | main.go:198 | every match found lies within the line and spans at least `]()` |
| MainProgram.DotNameNotMatched | main.go:167 | `](.foo)` is not matched here, while link.go's pattern matches it |
| MainProgram.MatchRefShape | main.go:202-211 | the column computed from the last `(` before the capture is the 1-based position of the URL's first character |
| MainProgram.LineRefsShape | main.go:198-212 | every link of a line fits it and starts with `./` or `../` |
| MainProgram.ExtractRefsOrigin | main.go:182-213 | every link lies on a line outside fences, fits it and starts with `./` or `../` |
| MainProgram.MatchedLinks | main.go:198-212 | the inner loop appends one link per match, left to right |
| MainProgram.ExtractRelativeLinks | main.go:170-220 | open and read errors are returned; otherwise the links of every line outside fences |
| MainProgram.HeadingBaseExactly | main.go:259-264 | a line is a heading exactly when it starts with `#` and contains a space |
| MainProgram.HeadingBaseShape | main.go:259-266 | the heading text is everything after the first space, trimmed |
| MainProgram.SevenHashesIsHeading | main.go:259-266 | seven hashes and a space still make a heading here |
| MainProgram.SevenHashesNotAtx | internal/markdown/anchor/anchor.go:48-52 | anchor.go's `^#{1,6} ` rule rejects the same line |
| MainProgram.AnchorsSpecCorrect | main.go:244-290 | the k-th anchor comes from a heading line outside fences, disambiguated by earlier equal slugs |
| MainProgram.AnchorsSpecComplete | main.go:244-290 | conversely, every heading line outside fences yields an anchor: the one right after those of the earlier lines, made from its own slug and suffixed by its earlier occurrences |
| MainProgram.HeadingLine | main.go:259-289 | a line starting with `#` and holding a space appends its disambiguated slug and counts it; any other line leaves anchors and counter as they are; either way they stay in step with the bases |
| MainProgram.GetMarkdownAnchors | main.go:232-298 | open and read errors are returned; otherwise the disambiguated slugs of the heading lines outside fences |
| MainProgram.CheckLinks | main.go:78-127 | `brokenLinksFound` is whether some link is broken and `validLinksCount` is the number of valid links |
| MainProgram.CheckFiles | main.go:37-156 | an empty file list exits 1 with the usage text; otherwise 1 exactly when a file is missing, fails extraction or has a broken link, else 0 |
| Cli.LastNonFlag | internal/cli/args.go:25-40 | none exactly when every argument is a flag; otherwise a non-flag argument after which only flags follow |
| Cli.ParseArgs | internal/cli/args.go:17-44 | the command is decided by the last non-flag argument, the options by the presence of the exact flags, and the files are the other arguments in order (the copy at internal/cli/cli.go:45-72 is identical) |
| Cli.ParseArgsEmpty | internal/cli/args.go:18-23 | no arguments give Usage, both options false and no files |
| Cli.UsageExactly | internal/cli/args.go:25-41 | the command is Usage exactly when every argument is a flag |
| Cli.LastArgumentDecides | internal/cli/args.go:27-39 | a trailing flag changes neither command nor files; a trailing non-flag decides the command and is a file unless it is `run` or `version` |
| Cli.FilesOfConcat | internal/cli/args.go:36-39 | the file list of concatenated arguments is the concatenation of the file lists |
| Cli.FilesOfMembers | internal/cli/args.go:36-39 | an argument is a file exactly when it is neither a flag nor a keyword |
| Cli.ParseArgsExamples | internal/cli/args.go:27-39 | `a.md run` runs on all Markdown with files `a.md`; `--color` is a file name |
| Cli.Run | internal/cli/cli.go:29-43 | Run dispatches on the parsed command, options and files |
| Cli.RunUsageExactly | internal/cli/cli.go:29-43 | Run shows the usage with `exitcode.UsageError` (3) exactly when every argument is a flag; a check on given files gets exactly the file arguments |

## Left out

- File I/O (`os.Open`, `os.Stat`, `bufio.Scanner`) is an abstract map from
  path to entry: missing, directory, unreadable, or regular with its lines
  and whether the scanner fails after them. Line splitting and the scanner's
  line-length limit are not modelled, beyond that failure flag.
- `fileutils.IsDirectory` is not part of this model. Its failure is taken to
  be a missing path.
- `url.QueryUnescape`, `filepath.Dir`, `filepath.Join` and `os.Stat` on
  joined paths are parameters of the environment (`Validation.Env`), with no
  properties assumed.
- Anchors.LowerChar: `strings.ToLower` is modelled for ASCII only. Unicode
  case mapping is not.
- Columns are counted in characters. Go counts bytes, so the two differ on
  lines with non-ASCII text before a link.
- Everything printed is left out: the error and success messages, colors,
  the caret line and the verbose reports. The `verbose`/`forceColor`
  parameters only reach `Cli.Action`. `getLineContent` is modelled, but its
  callers' use of it only for printing is not.
- `git ls-files` (`findAllMarkdownFiles`), `main.go`'s `parseFlags`,
  `version.Print`, `program.Start` and signal handling are left out. `Run`
  returns the action it would take (`Cli.Action`) instead of calling them.
- Check.RelativeLinksAndAnchors: check.go sets the exit code to the literal
  `1`, which equals `exitcode.Interrupt`. The model keeps the literal.
- Cli.Run: a Dafny `Command` cannot hold a value outside the four named
  ones, so Go's `default` branch of `Run` is not reachable in the model.
- Scan.Link: the scan.go revision sets a `LineContent` field that link.go's
  `Link` type lacks. scan.go therefore has its own `Link` datatype
  with that field, and it has no `IsValid` field.
- Scan.Uncached: the four error messages of `File` are collapsed into the
  `ScanError` values; their texts are not modelled.
- The scan cache is a Dafny object rather than a package-level variable.
  Concurrent use of it is not modelled.
