/** The file system as the link checker sees it through os.Stat, os.Open and a
    bufio.Scanner reading lines. Paths are literal strings: two spellings of
    one file are two entries. */
module FileSystem {
  import opened Results

  /** What a path names. `Unreadable` exists for os.Stat but os.Open fails on
      it. A directory can be opened but reading it fails. A regular file yields
      its lines; `readFails` says that the scanner stops with an error after
      delivering them (for instance on a line longer than its buffer). */
  datatype Entry =
    | Missing
    | Directory
    | Unreadable
    | Regular(lines: seq<string>, readFails: bool)

  type Fs = map<string, Entry>

  datatype FsError = OpenFailed | ReadFailed

  function Lookup(fs: Fs, path: string): Entry {
    if path in fs then fs[path] else Missing
  }

  /** `os.Stat(path)` succeeds, i.e. `os.IsNotExist(err)` is false. */
  predicate Exists(fs: Fs, path: string) {
    !Lookup(fs, path).Missing?
  }

  /** Open the entry and read all of its lines, as every line loop in the
      source does before it looks at `scanner.Err()`. */
  function ReadLines(e: Entry): (r: Outcome<seq<string>, FsError>)
    ensures r.Ok? <==> e.Regular? && !e.readFails
    ensures r.Ok? ==> r.value == e.lines
  {
    match e
    case Missing => Err(OpenFailed)
    case Unreadable => Err(OpenFailed)
    case Directory => Err(ReadFailed)
    case Regular(lines, readFails) => if readFails then Err(ReadFailed) else Ok(lines)
  }
}
