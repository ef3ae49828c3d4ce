/**
 * The two functions of Node's `path.posix` module the plugin relies on:
 * the `name` field of `path.parse` (used to derive an extension name) and
 * `path.join` (used to build absolute paths), both on '/'-separated strings.
 */
module Paths {

  /** The path with every trailing '/' removed. */
  function TrimTrailingSlashes(p: string): (r: string)
    ensures |r| <= |p|
  {
    if p != [] && p[|p| - 1] == '/' then TrimTrailingSlashes(p[..|p| - 1]) else p
  }

  /** Trimming keeps a prefix, ends in a non-'/' (or is empty) and drops only '/' characters. */
  lemma {:induction false} TrimTrailingSlashesSpec(p: string)
    ensures TrimTrailingSlashes(p) <= p
    ensures TrimTrailingSlashes(p) == [] || TrimTrailingSlashes(p)[|TrimTrailingSlashes(p)| - 1] != '/'
    ensures forall k :: |TrimTrailingSlashes(p)| <= k < |p| ==> p[k] == '/'
    decreases |p|
  {
    if p != [] && p[|p| - 1] == '/' {
      TrimTrailingSlashesSpec(p[..|p| - 1]);
    }
  }

  /** The part of `p` after its last '/'. */
  function LastSegment(p: string): (r: string)
    ensures |r| <= |p|
  {
    if p == [] || p[|p| - 1] == '/' then [] else LastSegment(p[..|p| - 1]) + [p[|p| - 1]]
  }

  /** The last segment is the longest suffix of `p` that holds no '/'. */
  lemma {:induction false} LastSegmentSpec(p: string)
    ensures LastSegment(p) == p[|p| - |LastSegment(p)|..]
    ensures forall k :: 0 <= k < |LastSegment(p)| ==> LastSegment(p)[k] != '/'
    ensures |LastSegment(p)| < |p| ==> p[|p| - |LastSegment(p)| - 1] == '/'
    decreases |p|
  {
    if p != [] && p[|p| - 1] != '/' {
      var q, c := p[..|p| - 1], p[|p| - 1];
      LastSegmentSpec(q);
      var s, t := LastSegment(p), LastSegment(q);
      assert s == t + [c];
      assert p == q + [c];
      assert p[|p| - |s|..] == q[|q| - |t|..] + [c];
      forall k | 0 <= k < |s| ensures s[k] != '/' {
        if k < |t| {
          assert s[k] == t[k];
        }
      }
      if |s| < |p| {
        assert p[|p| - |s| - 1] == q[|q| - |t| - 1];
      }
    }
  }

  /** The index of the last '.' in `s`, or -1 when there is none. */
  function LastDot(s: string): (r: int)
    ensures -1 <= r < |s|
  {
    if s == [] then -1
    else if s[|s| - 1] == '.' then |s| - 1
    else LastDot(s[..|s| - 1])
  }

  /** `LastDot` finds a '.', and no '.' follows it. */
  lemma {:induction false} LastDotSpec(s: string)
    ensures LastDot(s) >= 0 ==> s[LastDot(s)] == '.'
    ensures forall k :: LastDot(s) < k < |s| ==> s[k] != '.'
    decreases |s|
  {
    if s != [] && s[|s| - 1] != '.' {
      LastDotSpec(s[..|s| - 1]);
    }
  }

  /** `path.posix.parse(p).base`: the last segment, trailing separators ignored. */
  function BaseName(p: string): string {
    LastSegment(TrimTrailingSlashes(p))
  }

  lemma {:induction false} BaseNameEmpty(p: string)
    ensures BaseName(p) == [] <==> forall k :: 0 <= k < |p| ==> p[k] == '/'
  {
    var t := TrimTrailingSlashes(p);
    TrimTrailingSlashesSpec(p);
    LastSegmentSpec(t);
    if t != [] {
      assert t[|t| - 1] == p[|t| - 1];
      assert LastSegment(t) != [];
    }
  }

  /**
   * `path.posix.parse(p).name`: the base name without its extension. The
   * extension starts at the last '.', except when that dot is the first
   * character (".profile") or the base name is "..".
   */
  function ParseName(p: string): string {
    var base := BaseName(p);
    var dot := LastDot(base);
    if dot <= 0 || base == ".." then base else base[..dot]
  }

  /**
   * The parsed name is empty exactly when the path is all separators; it
   * holds no '/', and it is the base name with at most a final extension
   * (from a '.' after which no '.' follows) removed.
   */
  lemma {:induction false} ParseNameSpec(p: string)
    ensures ParseName(p) == [] <==> forall k :: 0 <= k < |p| ==> p[k] == '/'
    ensures forall k :: 0 <= k < |ParseName(p)| ==> ParseName(p)[k] != '/'
    ensures ParseName(p) <= BaseName(p)
    ensures |ParseName(p)| < |BaseName(p)| ==>
      BaseName(p)[|ParseName(p)|] == '.'
      && forall k :: |ParseName(p)| < k < |BaseName(p)| ==> BaseName(p)[k] != '.'
    ensures |ParseName(p)| < |BaseName(p)| <==>
      BaseName(p) != ".." && exists k :: 0 < k < |BaseName(p)| && BaseName(p)[k] == '.'
  {
    BaseNameEmpty(p);
    LastSegmentSpec(TrimTrailingSlashes(p));
    var b := BaseName(p);
    LastDotSpec(b);
    if LastDot(b) > 0 {
      assert b[LastDot(b)] == '.';
    }
  }

  /**
   * `path.posix.join(a, b)` without the normalisation step: empty segments
   * are dropped, the rest are joined with '/', and an empty result is ".".
   */
  function Join(a: string, b: string): (r: string)
    ensures r != []
    ensures b != [] ==> |b| <= |r| && b == r[|r| - |b|..]
    ensures a != [] ==> a <= r
  {
    if a == [] && b == [] then "."
    else if a == [] then b
    else if b == [] then a
    else a + "/" + b
  }
}
