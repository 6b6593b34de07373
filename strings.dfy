/** The few functions of Go's `strings`, `unicode` and `fmt` packages that the
    link checker relies on, over Dafny strings (sequences of Unicode scalar
    values). */
module Strings {
  import opened Results

  /** strings.HasPrefix */
  predicate HasPrefix(s: string, prefix: string) {
    |prefix| <= |s| && s[..|prefix|] == prefix
  }

  /** strings.Contains: `sub` occurs somewhere in `s`; the empty string occurs
      in every string. */
  predicate Contains(s: string, sub: string)
    decreases |s|
  {
    HasPrefix(s, sub) || (|s| > 0 && Contains(s[1..], sub))
  }

  /** An occurrence at a known position is an occurrence. */
  lemma {:induction false} ContainsAt(s: string, sub: string, i: nat)
    requires i + |sub| <= |s| && s[i..i + |sub|] == sub
    ensures Contains(s, sub)
    decreases i
  {
    if i > 0 {
      assert s[1..][i - 1..i - 1 + |sub|] == s[i..i + |sub|];
      ContainsAt(s[1..], sub, i - 1);
    }
  }

  /** Every occurrence has a position. */
  lemma {:induction false} ContainsWitness(s: string, sub: string) returns (i: nat)
    requires Contains(s, sub)
    ensures i + |sub| <= |s| && s[i..i + |sub|] == sub
    decreases |s|
  {
    if HasPrefix(s, sub) {
      i := 0;
    } else {
      var j := ContainsWitness(s[1..], sub);
      assert s[1..][j..j + |sub|] == s[j + 1..j + 1 + |sub|];
      i := j + 1;
    }
  }

  /** A string too short to hold `sub` does not contain it, unless `sub` is empty. */
  lemma ContainsNeedsRoom(s: string, sub: string)
    requires Contains(s, sub)
    ensures |sub| <= |s|
  {
    var i := ContainsWitness(s, sub);
  }

  /** The index of the first character satisfying `p` (strings.IndexFunc,
      strings.IndexAny, strings.IndexByte). */
  function IndexWhere(s: string, p: char -> bool): (r: Option<nat>)
    ensures r.Some? ==> r.value < |s| && p(s[r.value])
    ensures r.Some? ==> forall i :: 0 <= i < r.value ==> !p(s[i])
    ensures r.None? ==> forall i :: 0 <= i < |s| ==> !p(s[i])
    decreases |s|
  {
    if |s| == 0 then None
    else if p(s[0]) then Some(0)
    else match IndexWhere(s[1..], p)
      case None => None
      case Some(i) => Some(i + 1)
  }

  /** The first character satisfying `p` is the one IndexWhere finds. */
  lemma FirstWhere(s: string, p: char -> bool, k: nat)
    requires k < |s| && p(s[k])
    requires forall j :: 0 <= j < k ==> !p(s[j])
    ensures IndexWhere(s, p) == Some(k)
  {
    var r := IndexWhere(s, p);
    assert r.Some?;
    assert !(r.value < k) && !(r.value > k);
  }

  /** The index of the first character at or after `j` satisfying `p`: how
      a regular expression's `[^…]*` run is scanned in place. */
  function IndexFrom(s: string, j: nat, p: char -> bool): (r: Option<nat>)
    requires j <= |s|
    ensures r.Some? ==> j <= r.value < |s| && p(s[r.value])
    decreases |s| - j
  {
    if j == |s| then None
    else if p(s[j]) then Some(j)
    else IndexFrom(s, j + 1, p)
  }

  /** No character between `j` and what IndexFrom finds satisfies `p`. */
  lemma {:induction false} IndexFromFirst(s: string, j: nat, p: char -> bool)
    requires j <= |s|
    ensures IndexFrom(s, j, p).Some? ==> forall m :: j <= m < IndexFrom(s, j, p).value ==> !p(s[m])
    ensures IndexFrom(s, j, p).None? ==> forall m :: j <= m < |s| ==> !p(s[m])
    decreases |s| - j
  {
    if j < |s| && !p(s[j]) {
      IndexFromFirst(s, j + 1, p);
    }
  }

  /** The first character at or after `j` satisfying `p` is the one
      IndexFrom finds. */
  lemma {:induction false} IndexFromFinds(s: string, j: nat, p: char -> bool, k: nat)
    requires j <= k < |s| && p(s[k])
    requires forall m :: j <= m < k ==> !p(s[m])
    ensures IndexFrom(s, j, p) == Some(k)
    decreases k - j
  {
    if j < k {
      IndexFromFinds(s, j + 1, p, k);
    }
  }

  /** The index of the last character satisfying `p` (strings.LastIndex for a
      one-character pattern). */
  function LastIndexWhere(s: string, p: char -> bool): (r: Option<nat>)
    ensures r.Some? ==> r.value < |s| && p(s[r.value])
    ensures r.Some? ==> forall i :: r.value < i < |s| ==> !p(s[i])
    ensures r.None? ==> forall i :: 0 <= i < |s| ==> !p(s[i])
    decreases |s|
  {
    if |s| == 0 then None
    else if p(s[|s| - 1]) then Some(|s| - 1)
    else LastIndexWhere(s[..|s| - 1], p)
  }

  /** strings.TrimLeft / strings.TrimLeftFunc: drop the longest prefix whose
      characters all satisfy `cut`. */
  function TrimLeft(s: string, cut: char -> bool): (r: string)
    ensures |r| <= |s|
    ensures |r| > 0 ==> !cut(r[0])
    decreases |s|
  {
    if |s| > 0 && cut(s[0]) then TrimLeft(s[1..], cut) else s
  }

  /** What TrimLeft keeps is a suffix of its input, and all it drops
      satisfies `cut`. */
  lemma {:induction false} TrimLeftSuffix(s: string, cut: char -> bool)
    ensures TrimLeft(s, cut) == s[|s| - |TrimLeft(s, cut)|..]
    ensures forall i :: 0 <= i < |s| - |TrimLeft(s, cut)| ==> cut(s[i])
    decreases |s|
  {
    if |s| > 0 && cut(s[0]) {
      TrimLeftSuffix(s[1..], cut);
    }
  }

  /** strings.TrimRight / strings.TrimRightFunc: drop the longest suffix whose
      characters all satisfy `cut`. */
  function TrimRight(s: string, cut: char -> bool): (r: string)
    ensures |r| <= |s|
    ensures |r| > 0 ==> !cut(r[|r| - 1])
    decreases |s|
  {
    if |s| > 0 && cut(s[|s| - 1]) then TrimRight(s[..|s| - 1], cut) else s
  }

  /** What TrimRight keeps is a prefix of its input, and all it drops
      satisfies `cut`. */
  lemma {:induction false} TrimRightPrefix(s: string, cut: char -> bool)
    ensures TrimRight(s, cut) == s[..|TrimRight(s, cut)|]
    ensures forall i :: |TrimRight(s, cut)| <= i < |s| ==> cut(s[i])
    decreases |s|
  {
    if |s| > 0 && cut(s[|s| - 1]) {
      TrimRightPrefix(s[..|s| - 1], cut);
    }
  }

  /** unicode.IsSpace: the Unicode White_Space characters. */
  predicate IsSpace(c: char) {
    || c == '\t' || c == '\n' || c == '\U{B}' || c == '\U{C}' || c == '\r' || c == ' '
    || c == '\U{85}' || c == '\U{A0}' || c == '\U{1680}'
    || ('\U{2000}' <= c <= '\U{200A}')
    || c == '\U{2028}' || c == '\U{2029}' || c == '\U{202F}' || c == '\U{205F}' || c == '\U{3000}'
  }

  /** The cut set " \t" used with TrimLeft and TrimRight. */
  predicate IsBlank(c: char) {
    c == ' ' || c == '\t'
  }

  /** `\s` in Go's regular expression syntax: [\t\n\f\r ]. */
  predicate IsRegexpSpace(c: char) {
    c == '\t' || c == '\n' || c == '\U{C}' || c == '\r' || c == ' '
  }

  /** strings.TrimSpace */
  function TrimSpace(s: string): string {
    TrimLeft(TrimRight(s, IsSpace), IsSpace)
  }

  /** A string that starts with a non-space character loses only its trailing
      white space to TrimSpace. */
  lemma TrimSpaceKeepsFirst(s: string)
    requires |s| > 0 && !IsSpace(s[0])
    ensures TrimSpace(s) == TrimRight(s, IsSpace)
    ensures |TrimSpace(s)| > 0 && TrimSpace(s)[0] == s[0]
  {
    var t := TrimRight(s, IsSpace);
    assert 0 < |s| ==> IsSpace(s[0]) || 0 < |t|;
    assert t[0] == s[0];
  }

  predicate IsDigit(c: char) {
    '0' <= c <= '9'
  }

  function DecimalDigit(d: nat): (c: char)
    requires d < 10
    ensures IsDigit(c)
  {
    (48 + d) as char
  }

  /** The decimal rendering of `%d` for a non-negative number. */
  function NatToString(n: nat): (r: string)
    ensures |r| > 0
    ensures forall i :: 0 <= i < |r| ==> IsDigit(r[i])
    decreases n
  {
    if n < 10 then [DecimalDigit(n)] else NatToString(n / 10) + [DecimalDigit(n % 10)]
  }
}
