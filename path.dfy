/**
 * Dotted paths such as "Graphics.Window.Width": the scan for the next '.'
 * that the resolver performs with `std::find`, splitting a path into its
 * segments (empty ones included), joining segments back, and the string
 * shapes that produce an empty segment.
 */
module DottedPath {

  const Dot: char := '.'

  /**
   * `std::find(s.begin() + from, s.end(), '.')` as an index: the first '.'
   * at or after `from`, or `|s|` when there is none.
   */
  function FindDot(s: string, from: nat): (k: nat)
    requires from <= |s|
    ensures from <= k <= |s|
    ensures forall i :: from <= i < k ==> s[i] != Dot
    ensures k < |s| ==> s[k] == Dot
    decreases |s| - from
  {
    if from == |s| || s[from] == Dot then from else FindDot(s, from + 1)
  }

  /** The segments of `s` between its dots, in order; empty segments are kept. */
  function Split(s: string): (parts: seq<string>)
    ensures |parts| >= 1
    ensures forall j :: 0 <= j < |parts| ==> Dot !in parts[j]
    decreases |s|
  {
    var k := FindDot(s, 0);
    if k == |s| then [s] else [s[..k]] + Split(s[k + 1..])
  }

  /** The segments written back with a '.' between each two. */
  function Join(parts: seq<string>): string
    requires |parts| >= 1
  {
    if |parts| == 1 then parts[0] else parts[0] + [Dot] + Join(parts[1..])
  }

  /**
   * The shapes of path that have an empty segment: the empty path, a leading
   * dot, a trailing dot, or two dots in a row.
   */
  predicate HasEmptySegment(s: string)
  {
    s == [] || s[0] == Dot || s[|s| - 1] == Dot ||
    exists i :: 0 <= i < |s| - 1 && s[i] == Dot && s[i + 1] == Dot
  }

  /** The scan result is determined by the two properties `FindDot` promises. */
  lemma FindDotUnique(s: string, from: nat, k: nat)
    requires from <= k <= |s|
    requires forall i :: from <= i < k ==> s[i] != Dot
    requires k < |s| ==> s[k] == Dot
    ensures FindDot(s, from) == k
  {
  }

  /** Scanning from an offset is scanning the suffix that starts there. */
  lemma FindDotShift(s: string, from: nat)
    requires from <= |s|
    ensures FindDot(s, from) == from + FindDot(s[from..], 0)
  {
    var j := FindDot(s[from..], 0);
    forall i | from <= i < from + j
      ensures s[i] != Dot
    {
      assert s[i] == s[from..][i - from];
    }
    if from + j < |s| {
      assert s[from + j] == s[from..][j];
    }
    FindDotUnique(s, from, from + j);
  }

  /** A path without dots is a single segment. */
  lemma SplitDotFree(s: string)
    requires Dot !in s
    ensures Split(s) == [s]
  {
    FindDotUnique(s, 0, |s|);
  }

  /** Splitting a path around one of its dots splits each side separately. */
  lemma {:induction false} SplitConcat(p: string, q: string)
    ensures Split(p + [Dot] + q) == Split(p) + Split(q)
    decreases |p|
  {
    var s := p + [Dot] + q;
    var k := FindDot(p, 0);
    forall i | 0 <= i < k
      ensures s[i] != Dot
    {
      assert s[i] == p[i];
    }
    if k == |p| {
      FindDotUnique(s, 0, |p|);
      assert s[..|p|] == p;
      assert s[|p| + 1..] == q;
    } else {
      assert s[k] == p[k];
      FindDotUnique(s, 0, k);
      assert s[..k] == p[..k];
      assert s[k + 1..] == p[k + 1..] + [Dot] + q;
      SplitConcat(p[k + 1..], q);
    }
  }

  /** Joining the segments of a path gives the path back. */
  lemma {:induction false} JoinSplit(s: string)
    ensures Join(Split(s)) == s
    decreases |s|
  {
    var k := FindDot(s, 0);
    if k < |s| {
      var t := s[k + 1..];
      var parts := Split(s);
      assert parts == [s[..k]] + Split(t);
      assert parts[1..] == Split(t);
      JoinSplit(t);
      assert s == s[..k] + [Dot] + t;
    }
  }

  /** Splitting the join of dot-free segments gives the segments back. */
  lemma {:induction false} SplitJoin(parts: seq<string>)
    requires |parts| >= 1
    requires forall j :: 0 <= j < |parts| ==> Dot !in parts[j]
    ensures Split(Join(parts)) == parts
    decreases |parts|
  {
    SplitDotFree(parts[0]);
    if |parts| > 1 {
      SplitConcat(parts[0], Join(parts[1..]));
      SplitJoin(parts[1..]);
      assert parts == [parts[0]] + parts[1..];
    }
  }

  /** A path without dots has an empty segment only when it is empty. */
  lemma ShapeDotFree(s: string)
    requires forall i :: 0 <= i < |s| ==> s[i] != Dot
    ensures HasEmptySegment(s) <==> s == []
  {
  }

  /**
   * Past a first dot at `k > 0`, the path has an empty segment exactly when
   * the rest after that dot has one.
   */
  lemma ShapeStep(s: string, k: nat)
    requires 0 < k < |s| && s[k] == Dot
    requires forall i :: 0 <= i < k ==> s[i] != Dot
    ensures HasEmptySegment(s) <==> HasEmptySegment(s[k + 1..])
  {
    var t := s[k + 1..];
    if HasEmptySegment(t) {
      if t == [] {
        assert s[|s| - 1] == Dot;
      } else if t[0] == Dot {
        assert s[k] == Dot && s[k + 1] == Dot;
      } else if t[|t| - 1] == Dot {
        assert s[|s| - 1] == t[|t| - 1];
      } else {
        var i :| 0 <= i < |t| - 1 && t[i] == Dot && t[i + 1] == Dot;
        assert s[k + 1 + i] == t[i] && s[k + 2 + i] == t[i + 1];
      }
    }
    if HasEmptySegment(s) {
      if s[|s| - 1] == Dot {
        assert t == [] || t[|t| - 1] == s[|s| - 1];
      } else {
        var i :| 0 <= i < |s| - 1 && s[i] == Dot && s[i + 1] == Dot;
        assert k <= i;
        if i == k {
          assert t[0] == s[k + 1];
        } else {
          assert t[i - k - 1] == s[i] && t[i - k] == s[i + 1];
        }
      }
    }
  }

  /**
   * A path has an empty segment exactly when it is empty, starts or ends
   * with a dot, or holds two dots in a row.
   */
  lemma {:induction false} EmptySegmentShape(s: string)
    ensures "" in Split(s) <==> HasEmptySegment(s)
    decreases |s|
  {
    var k := FindDot(s, 0);
    if k == |s| {
      assert Split(s) == [s];
      ShapeDotFree(s);
    } else {
      var t := s[k + 1..];
      assert Split(s) == [s[..k]] + Split(t);
      EmptySegmentShape(t);
      if k == 0 {
        assert s[..k] == "";
      } else {
        assert s[..k] != "";
        ShapeStep(s, k);
      }
    }
  }
}
