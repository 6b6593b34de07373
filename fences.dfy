/** The fence rule of the older line scanners (anchor.go, link.go, check.go
    and main.go): a line that starts exactly with three backticks toggles the
    code-block state and is itself skipped. */
module Fences {
  import opened Strings

  predicate IsFence(line: string) {
    HasPrefix(line, "```")
  }

  /** The number of fence lines in `lines`. */
  function FenceCount(lines: seq<string>): nat
    decreases |lines|
  {
    if |lines| == 0 then 0
    else FenceCount(lines[..|lines| - 1]) + (if IsFence(lines[|lines| - 1]) then 1 else 0)
  }

  /** Line `i` is content outside every fenced block: it is not a fence line
      and an even number of fence lines precede it. This is the reference the
      scanners' toggling `inCodeBlock` flag is proved against. */
  predicate OutsideFence(lines: seq<string>, i: nat)
    requires i < |lines|
  {
    !IsFence(lines[i]) && FenceCount(lines[..i]) % 2 == 0
  }

  /** One more fence line flips the parity of the fence count. */
  lemma ParityStep(n: nat)
    ensures (n + 1) % 2 == 1 <==> n % 2 == 0
  {
  }

  /** What `f` produces for the lines outside fences, in line order; `f` is
      given each line and its 1-based line number. Every older line scanner
      collects its links or headings this way. */
  function OutsideConcat<T>(lines: seq<string>, f: (string, nat) -> seq<T>): seq<T>
    decreases |lines|
  {
    if |lines| == 0 then []
    else
      var i := |lines| - 1;
      OutsideConcat(lines[..i], f) + (if OutsideFence(lines, i) then f(lines[i], i + 1) else [])
  }

  /** Taking one more line: the fence count grows on a fence line, and the
      collected items grow by that line's items when it lies outside fences. */
  lemma OutsideConcatStep<T>(lines: seq<string>, f: (string, nat) -> seq<T>, n: nat)
    requires n < |lines|
    ensures FenceCount(lines[..n + 1]) == FenceCount(lines[..n]) + (if IsFence(lines[n]) then 1 else 0)
    ensures OutsideConcat(lines[..n + 1], f) == OutsideConcat(lines[..n], f)
              + (if !IsFence(lines[n]) && FenceCount(lines[..n]) % 2 == 0 then f(lines[n], n + 1) else [])
  {
    assert lines[..n + 1][..n] == lines[..n];
  }

  /** Every collected item comes from a line outside fences. */
  lemma {:induction false} OutsideConcatOrigin<T>(lines: seq<string>, f: (string, nat) -> seq<T>, k: nat)
    returns (i: nat, j: nat)
    requires k < |OutsideConcat(lines, f)|
    ensures i < |lines| && OutsideFence(lines, i)
    ensures j < |f(lines[i], i + 1)| && OutsideConcat(lines, f)[k] == f(lines[i], i + 1)[j]
    decreases |lines|
  {
    var n := |lines| - 1;
    var prior := OutsideConcat(lines[..n], f);
    if k < |prior| {
      i, j := OutsideConcatOrigin(lines[..n], f, k);
      assert lines[..n][..i] == lines[..i];
    } else {
      i, j := n, k - |prior|;
    }
  }
  /** What the first m lines yield is a prefix of what all lines yield. */
  lemma {:induction false} OutsideConcatPrefix<T>(lines: seq<string>, f: (string, nat) -> seq<T>, m: nat)
    requires m <= |lines|
    ensures OutsideConcat(lines[..m], f) <= OutsideConcat(lines, f)
    decreases |lines|
  {
    if m < |lines| {
      var n := |lines| - 1;
      OutsideConcatPrefix(lines[..n], f, m);
      assert lines[..n][..m] == lines[..m];
    } else {
      assert lines[..m] == lines;
    }
  }

  /** Every line outside fences has its items collected, in place: they
      follow the items of the lines before it. */
  lemma OutsideConcatAt<T>(lines: seq<string>, f: (string, nat) -> seq<T>, i: nat, j: nat)
    requires i < |lines| && OutsideFence(lines, i)
    requires j < |f(lines[i], i + 1)|
    ensures var k := |OutsideConcat(lines[..i], f)| + j;
      k < |OutsideConcat(lines, f)| && OutsideConcat(lines, f)[k] == f(lines[i], i + 1)[j]
  {
    OutsideConcatStep(lines, f, i);
    OutsideConcatPrefix(lines, f, i + 1);
  }
  /** OutsideConcatStep by cases, in the form the line loops use: a fence
      line flips the parity and adds nothing, a fenced line changes neither,
      and any other line adds its items. */
  lemma OutsideConcatCases<T>(lines: seq<string>, f: (string, nat) -> seq<T>, n: nat)
    requires n < |lines|
    ensures IsFence(lines[n]) ==>
      (FenceCount(lines[..n + 1]) % 2 == 1 <==> FenceCount(lines[..n]) % 2 == 0) &&
      OutsideConcat(lines[..n + 1], f) == OutsideConcat(lines[..n], f)
    ensures !IsFence(lines[n]) ==> FenceCount(lines[..n + 1]) == FenceCount(lines[..n])
    ensures !IsFence(lines[n]) && FenceCount(lines[..n]) % 2 == 1 ==>
      OutsideConcat(lines[..n + 1], f) == OutsideConcat(lines[..n], f)
    ensures !IsFence(lines[n]) && FenceCount(lines[..n]) % 2 == 0 ==>
      OutsideConcat(lines[..n + 1], f) == OutsideConcat(lines[..n], f) + f(lines[n], n + 1)
  {
    OutsideConcatStep(lines, f, n);
    ParityStep(FenceCount(lines[..n]));
    var prior := OutsideConcat(lines[..n], f);
    assert prior + [] == prior;
  }
}
