/** Small facts about growing a sequence one element at a time, used by the
    loops that append to a slice. */
module Sequences {

  /** Taking one more element of `s` appends that element. */
  lemma PrefixStep<T>(s: seq<T>, j: nat)
    requires j < |s|
    ensures s[..j] + [s[j]] == s[..j + 1]
  {
  }

  /** The same, after a fixed prefix `acc`. */
  lemma AppendStep<T>(acc: seq<T>, s: seq<T>, j: nat)
    requires j < |s|
    ensures acc + s[..j] + [s[j]] == acc + s[..j + 1]
  {
    PrefixStep(s, j);
  }

  /** What `f` yields for each line whose prefix (the lines up to and
      including it) satisfies `keep`, in order. */
  function ConcatWhere<T>(lines: seq<string>, keep: seq<string> -> bool, f: (string, nat) -> seq<T>): seq<T>
    decreases |lines|
  {
    if |lines| == 0 then []
    else
      var n := |lines| - 1;
      ConcatWhere(lines[..n], keep, f) + (if keep(lines) then f(lines[n], n + 1) else [])
  }

  /** Every element comes from `f` on a kept line. */
  lemma {:induction false} ConcatWhereOrigin<T>(lines: seq<string>, keep: seq<string> -> bool, f: (string, nat) -> seq<T>, k: nat)
    returns (i: nat, j: nat)
    requires k < |ConcatWhere(lines, keep, f)|
    ensures i < |lines| && keep(lines[..i + 1])
    ensures j < |f(lines[i], i + 1)| && ConcatWhere(lines, keep, f)[k] == f(lines[i], i + 1)[j]
    decreases |lines|
  {
    var n := |lines| - 1;
    var prior := ConcatWhere(lines[..n], keep, f);
    if k < |prior| {
      i, j := ConcatWhereOrigin(lines[..n], keep, f, k);
      assert lines[..n][..i + 1] == lines[..i + 1];
    } else {
      i, j := n, k - |prior|;
      assert lines[..n + 1] == lines;
    }
  }
}
