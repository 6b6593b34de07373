/** The per-link decision and the exit code shared by
    internal/check/check.go (RelativeLinksAndAnchors) and main.go (main):
    every link of a checked file is skipped, broken because its target file
    does not exist, broken because its anchor is not among the target's
    anchors, or valid; the run fails when a file is missing, cannot be read
    or holds a broken link. */
module Validation {
  import opened Results
  import FileSystem
  import Links

  /** check.Link and main.Link: a URL with its 1-based line and column. */
  datatype RawLink = RawLink(url: string, line: nat, col: nat)

  /** A link taken from line `n` of `line`: its URL sits right after `](`
      at its 1-based column, holds no `)` and is closed by `)`. */
  predicate RefFromLine(line: string, n: nat, l: RawLink) {
    && l.line == n && 3 <= l.col && l.col - 1 + |l.url| < |line|
    && line[l.col - 3] == ']' && line[l.col - 2] == '('
    && line[l.col - 1..l.col - 1 + |l.url|] == l.url
    && line[l.col - 1 + |l.url|] == ')'
    && ')' !in l.url
  }

  /** What the checker asks of the outside world: the file system,
      `filepath.Dir`, `filepath.Join` and `url.QueryUnescape`. */
  datatype Env = Env(
    fs: FileSystem.Fs,
    dir: string -> string,
    join: (string, string) -> string,
    unescape: Links.Unescape)

  datatype LinkClass = Skipped | FileNotFound | AnchorNotFound | Valid

  predicate IsBroken(c: LinkClass) {
    c.FileNotFound? || c.AnchorNotFound?
  }

  /** The anchors of a target file (getMarkdownAnchors), or its error. */
  type AnchorSource = FileSystem.Entry -> Outcome<seq<string>, FileSystem.FsError>

  /** The links of a checked file (extractRelativeLinks), or its error. */
  type LinkSource = FileSystem.Entry -> Outcome<seq<RawLink>, FileSystem.FsError>

  /** The file a link found in directory `dir` points at, once its path part
      is decoded; None when decoding fails. */
  function Target(env: Env, dir: string, url: string): Option<string> {
    match env.unescape(Links.SplitLinkAndAnchor(url).0)
    case None => None
    case Some(decoded) => Some(env.join(dir, decoded))
  }

  /** The class of one link (check.go:66-117, main.go:79-126). */
  function Classify(env: Env, dir: string, url: string, anchorsOf: AnchorSource): LinkClass {
    var anchor := Links.SplitLinkAndAnchor(url).1;
    match Target(env, dir, url)
    case None => Skipped
    case Some(full) =>
      if !FileSystem.Exists(env.fs, full) then FileNotFound
      else if anchor == "" then Valid
      else match anchorsOf(FileSystem.Lookup(env.fs, full))
        case Err(_) => Skipped
        case Ok(anchors) => if anchor in anchors then Valid else AnchorNotFound
  }

  /** A link whose target does not exist is broken whatever its anchor, and
      the target's anchors are not consulted. */
  lemma MissingTargetIsBroken(env: Env, dir: string, url: string, anchorsOf: AnchorSource, other: AnchorSource)
    requires Target(env, dir, url).Some? && !FileSystem.Exists(env.fs, Target(env, dir, url).value)
    ensures Classify(env, dir, url, anchorsOf) == FileNotFound
    ensures Classify(env, dir, url, anchorsOf) == Classify(env, dir, url, other)
  {
  }

  /** A link without an anchor to an existing target is valid. */
  lemma EmptyAnchorIsValid(env: Env, dir: string, url: string, anchorsOf: AnchorSource)
    requires Links.SplitLinkAndAnchor(url).1 == ""
    requires Target(env, dir, url).Some? && FileSystem.Exists(env.fs, Target(env, dir, url).value)
    ensures Classify(env, dir, url, anchorsOf) == Valid
  {
  }

  /** A link is valid exactly when its path decodes, its target exists, and
      its anchor is empty or occurs, exactly and case-sensitively, among the
      target's anchors. */
  lemma ValidExactly(env: Env, dir: string, url: string, anchorsOf: AnchorSource)
    ensures var anchor := Links.SplitLinkAndAnchor(url).1;
      var target := Target(env, dir, url);
      Classify(env, dir, url, anchorsOf) == Valid <==>
        target.Some? && FileSystem.Exists(env.fs, target.value) &&
        (anchor == "" ||
         (anchorsOf(FileSystem.Lookup(env.fs, target.value)).Ok? &&
          anchor in anchorsOf(FileSystem.Lookup(env.fs, target.value)).value))
  {
  }

  /** Whether some link among `links` is broken (`brokenLinksFound`). */
  function AnyBroken(env: Env, dir: string, links: seq<RawLink>, anchorsOf: AnchorSource): bool
    decreases |links|
  {
    if |links| == 0 then false
    else
      var last := links[|links| - 1];
      AnyBroken(env, dir, links[..|links| - 1], anchorsOf) || IsBroken(Classify(env, dir, last.url, anchorsOf))
  }

  /** The number of valid links among `links` (`validLinksCount`). */
  function CountValid(env: Env, dir: string, links: seq<RawLink>, anchorsOf: AnchorSource): (n: nat)
    ensures n <= |links|
    decreases |links|
  {
    if |links| == 0 then 0
    else
      var last := links[|links| - 1];
      CountValid(env, dir, links[..|links| - 1], anchorsOf) + (if Classify(env, dir, last.url, anchorsOf) == Valid then 1 else 0)
  }

  /** `brokenLinksFound` is set exactly when some link is broken. */
  lemma {:induction false} AnyBrokenExactly(env: Env, dir: string, links: seq<RawLink>, anchorsOf: AnchorSource)
    ensures AnyBroken(env, dir, links, anchorsOf) <==>
      exists k :: 0 <= k < |links| && IsBroken(Classify(env, dir, links[k].url, anchorsOf))
    decreases |links|
  {
    if |links| > 0 {
      var prior := links[..|links| - 1];
      AnyBrokenExactly(env, dir, prior, anchorsOf);
      if exists k :: 0 <= k < |links| && IsBroken(Classify(env, dir, links[k].url, anchorsOf)) {
        var k :| 0 <= k < |links| && IsBroken(Classify(env, dir, links[k].url, anchorsOf));
        if k < |prior| {
          assert prior[k] == links[k];
        }
      }
      if exists k :: 0 <= k < |prior| && IsBroken(Classify(env, dir, prior[k].url, anchorsOf)) {
        var k :| 0 <= k < |prior| && IsBroken(Classify(env, dir, prior[k].url, anchorsOf));
        assert prior[k] == links[k];
      }
    }
  }

  /** Only valid links are counted: every link is counted exactly when every
      link is valid. */
  lemma {:induction false} CountValidBound(env: Env, dir: string, links: seq<RawLink>, anchorsOf: AnchorSource)
    ensures CountValid(env, dir, links, anchorsOf) == |links| <==>
      forall k :: 0 <= k < |links| ==> Classify(env, dir, links[k].url, anchorsOf) == Valid
    decreases |links|
  {
    if |links| > 0 {
      var prior := links[..|links| - 1];
      CountValidBound(env, dir, prior, anchorsOf);
      assert forall k :: 0 <= k < |prior| ==> prior[k] == links[k];
    }
  }

  /** Whether checking `file` sets the exit code to 1 (check.go:31-50 and
      138-140, main.go:49-64 and 146-148). */
  predicate FileFails(env: Env, file: string, linksOf: LinkSource, anchorsOf: AnchorSource) {
    !FileSystem.Exists(env.fs, file) ||
    match linksOf(FileSystem.Lookup(env.fs, file))
    case Err(_) => true
    case Ok(links) => AnyBroken(env, env.dir(file), links, anchorsOf)
  }

  function AnyFileFails(env: Env, files: seq<string>, linksOf: LinkSource, anchorsOf: AnchorSource): bool
    decreases |files|
  {
    if |files| == 0 then false
    else AnyFileFails(env, files[..|files| - 1], linksOf, anchorsOf) || FileFails(env, files[|files| - 1], linksOf, anchorsOf)
  }

  /** The exit code of a run over `files`: the literal 1 on failure,
      `exitcode.Success` (0) otherwise. */
  function ExitCode(env: Env, files: seq<string>, linksOf: LinkSource, anchorsOf: AnchorSource): int {
    if AnyFileFails(env, files, linksOf, anchorsOf) then 1 else 0
  }

  /** The exit code is 1 exactly when some file fails, and 0 otherwise. */
  lemma {:induction false} ExitCodeExactly(env: Env, files: seq<string>, linksOf: LinkSource, anchorsOf: AnchorSource)
    ensures ExitCode(env, files, linksOf, anchorsOf) == 1 <==>
      exists i :: 0 <= i < |files| && FileFails(env, files[i], linksOf, anchorsOf)
    ensures ExitCode(env, files, linksOf, anchorsOf) == 0 <==>
      forall i :: 0 <= i < |files| ==> !FileFails(env, files[i], linksOf, anchorsOf)
    decreases |files|
  {
    if |files| > 0 {
      var prior := files[..|files| - 1];
      ExitCodeExactly(env, prior, linksOf, anchorsOf);
      assert forall i :: 0 <= i < |prior| ==> prior[i] == files[i];
    }
  }

  /** Skipped links never make a file fail: an existing, readable file whose
      links are all skipped or valid passes. */
  lemma SkippedNeverFails(env: Env, file: string, linksOf: LinkSource, anchorsOf: AnchorSource)
    requires FileSystem.Exists(env.fs, file) && linksOf(FileSystem.Lookup(env.fs, file)).Ok?
    requires var links := linksOf(FileSystem.Lookup(env.fs, file)).value;
      forall k :: 0 <= k < |links| ==> !IsBroken(Classify(env, env.dir(file), links[k].url, anchorsOf))
    ensures !FileFails(env, file, linksOf, anchorsOf)
  {
    AnyBrokenExactly(env, env.dir(file), linksOf(FileSystem.Lookup(env.fs, file)).value, anchorsOf);
  }
}
