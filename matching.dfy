/** Go's `FindAllStringIndex(line, -1)` for the fixed link patterns of the
    scanners. Each of those patterns matches at most one way at a given start
    position, so a pattern is represented by the function `at` that gives the
    end of the match starting at a position, if there is one. */
module Matching {
  import opened Results

  /** Every match `at` reports inside a text of length `len` is non-empty and
      ends within the text. */
  predicate Advances(at: nat -> Option<nat>, len: nat) {
    forall i :: 0 <= i < len && at(i).Some? ==> i < at(i).value <= len
  }

  /** No match starts in `[lo, hi)`. */
  predicate NoMatchIn(at: nat -> Option<nat>, lo: nat, hi: nat) {
    forall i :: lo <= i < hi ==> at(i).None?
  }

  /** The successive leftmost, non-overlapping matches at or after `p`, as
      (start, end) pairs; the search resumes at the end of each match. */
  function FindAll(at: nat -> Option<nat>, len: nat, p: nat): (r: seq<(nat, nat)>)
    requires Advances(at, len)
    ensures forall k :: 0 <= k < |r| ==> p <= r[k].0 < len && at(r[k].0) == Some(r[k].1)
    ensures forall k :: 0 <= k < |r| - 1 ==> r[k].1 <= r[k + 1].0
    decreases len - p
  {
    if p >= len then []
    else match at(p)
      case Some(e) => [(p, e)] + FindAll(at, len, e)
      case None => FindAll(at, len, p + 1)
  }

  /** The start of the first match found, or `len` when there is none. */
  function FirstStart(r: seq<(nat, nat)>, len: nat): nat {
    if |r| == 0 then len else r[0].0
  }

  /** No match starts after a found match and before the next one (or the end
      of the text). */
  predicate NoGaps(at: nat -> Option<nat>, r: seq<(nat, nat)>, len: nat) {
    forall k :: 0 <= k < |r| ==> NoMatchIn(at, r[k].1, FirstStart(r[k + 1..], len))
  }

  /** FindAll skips no match: nothing matches before the first match, between
      two consecutive matches, or after the last one. */
  lemma {:induction false} FindAllLeftmost(at: nat -> Option<nat>, len: nat, p: nat)
    requires Advances(at, len)
    ensures NoMatchIn(at, p, FirstStart(FindAll(at, len, p), len))
    ensures NoGaps(at, FindAll(at, len, p), len)
    decreases len - p
  {
    var r := FindAll(at, len, p);
    if p < len {
      match at(p)
      case Some(e) =>
        FindAllLeftmost(at, len, e);
        NoGapsPrepend(at, len, p, e, FindAll(at, len, e));
      case None =>
        FindAllLeftmost(at, len, p + 1);
        assert r == FindAll(at, len, p + 1);
        assert p < FirstStart(r, len);
    }
  }

  /** A match that ends where the next gap-free run of matches begins extends
      that run without gaps. */
  lemma NoGapsPrepend(at: nat -> Option<nat>, len: nat, p: nat, e: nat, rest: seq<(nat, nat)>)
    requires NoGaps(at, rest, len) && NoMatchIn(at, e, FirstStart(rest, len))
    ensures NoGaps(at, [(p, e)] + rest, len)
  {
    var r := [(p, e)] + rest;
    forall k | 0 <= k < |r| ensures NoMatchIn(at, r[k].1, FirstStart(r[k + 1..], len)) {
      if k == 0 {
        assert r[1..] == rest;
      } else {
        assert r[k] == rest[k - 1] && r[k + 1..] == rest[k - 1 + 1..];
      }
    }
  }
}
