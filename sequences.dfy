/**
 * Splitting a sequence on a separator and joining it back, with the semantics
 * of Go's `bytes.Split` for a non-empty separator: the leftmost occurrence is
 * cut first, occurrences do not overlap, and n occurrences give n + 1 pieces.
 */
module Sequences {

  /** `sep` occurs in `s` starting at index `i`. */
  predicate OccursAt<T(==)>(s: seq<T>, sep: seq<T>, i: int)
  {
    0 <= i && i + |sep| <= |s| && s[i..i + |sep|] == sep
  }

  /** `sep` occurs somewhere in `s`. */
  predicate Contains<T(==)>(s: seq<T>, sep: seq<T>)
  {
    exists i | 0 <= i <= |s| :: OccursAt(s, sep, i)
  }

  /**
   * No proper suffix of `sep` is also a prefix of it, so two occurrences of
   * `sep` can never overlap, nor can one straddle a piece and a separator.
   */
  predicate BorderFree<T(==)>(sep: seq<T>)
  {
    forall k | 0 < k < |sep| :: sep[k..] != sep[..|sep| - k]
  }

  /** The leftmost occurrence of `sep` in `s` at or after `from`, or -1 (Go's `bytes.Index`). */
  function IndexFrom<T(==)>(s: seq<T>, sep: seq<T>, from: nat): (r: int)
    requires from <= |s|
    ensures r == -1 || (from <= r && OccursAt(s, sep, r))
    ensures forall j :: from <= j && (r == -1 || j < r) ==> !OccursAt(s, sep, j)
    decreases |s| - from
  {
    if from + |sep| > |s| then -1
    else if s[from..from + |sep|] == sep then from
    else IndexFrom(s, sep, from + 1)
  }

  /** Cuts `s` at every occurrence of `sep`, dropping the separators. */
  function Split<T(==)>(s: seq<T>, sep: seq<T>): (r: seq<seq<T>>)
    requires |sep| > 0
    ensures |r| >= 1
    decreases |s|
  {
    var m := IndexFrom(s, sep, 0);
    if m < 0 then [s] else [s[..m]] + Split(s[m + |sep|..], sep)
  }

  /** Concatenates the parts with `sep` between each two (Go's `bytes.Join`). */
  function Join<T>(parts: seq<seq<T>>, sep: seq<T>): seq<T>
    decreases |parts|
  {
    if |parts| == 0 then []
    else if |parts| == 1 then parts[0]
    else parts[0] + sep + Join(parts[1..], sep)
  }

  /** No piece produced by Split contains the separator. */
  lemma {:induction false} SplitPiecesAreFree<T>(s: seq<T>, sep: seq<T>)
    requires |sep| > 0
    ensures forall p | p in Split(s, sep) :: !Contains(p, sep)
    decreases |s|
  {
    var m := IndexFrom(s, sep, 0);
    if m >= 0 {
      SplitPiecesAreFree(s[m + |sep|..], sep);
      forall j | 0 <= j <= m ensures !OccursAt(s[..m], sep, j) {
        if j + |sep| <= m {
          assert s[..m][j..j + |sep|] == s[j..j + |sep|];
          assert !OccursAt(s, sep, j);
        }
      }
    }
  }

  /** Joining the pieces with the separator gives back the split sequence exactly. */
  lemma {:induction false} JoinSplit<T>(s: seq<T>, sep: seq<T>)
    requires |sep| > 0
    ensures Join(Split(s, sep), sep) == s
    decreases |s|
  {
    var m := IndexFrom(s, sep, 0);
    if m >= 0 {
      var rest := s[m + |sep|..];
      var tail := Split(rest, sep);
      JoinSplit(rest, sep);
      var parts := [s[..m]] + tail;
      assert Split(s, sep) == parts;
      assert parts[1..] == tail;
      assert Join(parts, sep) == s[..m] + sep + Join(tail, sep);
      assert s[m..m + |sep|] == sep;
      assert s == s[..m] + s[m..m + |sep|] + rest;
    }
  }

  /**
   * With a border-free separator, no occurrence in `p + sep + t` starts
   * inside `p` when `p` itself is free of the separator.
   */
  lemma NoOccurrenceBefore<T>(p: seq<T>, sep: seq<T>, t: seq<T>)
    requires BorderFree(sep) && !Contains(p, sep)
    ensures forall j | 0 <= j < |p| :: !OccursAt(p + sep + t, sep, j)
  {
    var x := p + sep + t;
    forall j | 0 <= j < |p| ensures !OccursAt(x, sep, j) {
      if j + |sep| <= |p| {
        assert x[j..j + |sep|] == p[j..j + |sep|];
        assert !OccursAt(p, sep, j);
      } else {
        var k := |p| - j;
        assert x[j..j + |sep|][k..] == sep[..|sep| - k];
        assert sep[k..] != sep[..|sep| - k];
      }
    }
  }

  /**
   * Split undoes Join when the separator is border-free and no part contains
   * it: together with JoinSplit, Split and Join are inverse bijections.
   */
  lemma {:induction false} SplitJoin<T>(parts: seq<seq<T>>, sep: seq<T>)
    requires |sep| > 0 && BorderFree(sep) && |parts| >= 1
    requires forall i | 0 <= i < |parts| :: !Contains(parts[i], sep)
    ensures Split(Join(parts, sep), sep) == parts
    decreases |parts|
  {
    var p := parts[0];
    assert !Contains(p, sep);
    if |parts| == 1 {
      var m := IndexFrom(p, sep, 0);
      assert m < 0;
    } else {
      var rest := parts[1..];
      var t := Join(rest, sep);
      var x := p + sep + t;
      assert Join(parts, sep) == x;
      var m := IndexFrom(x, sep, 0);
      assert OccursAt(x, sep, |p|) by {
        assert x[|p|..|p| + |sep|] == sep;
      }
      NoOccurrenceBefore(p, sep, t);
      assert m == |p|;
      assert x[..m] == p;
      assert x[m + |sep|..] == t;
      SplitJoin(rest, sep);
    }
  }
}
