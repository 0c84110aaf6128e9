/**
 * `path.extname` under Node's POSIX rules, which `extractFile` uses to pick the
 * extraction tool: trailing slashes are ignored, only the last path segment is
 * looked at, and the extension is the text from that segment's last dot,
 * except that a segment whose only dot is its first character (".bashrc"),
 * or the segment "..", has no extension.
 */
module Paths {
  import opened Results

  /** `e` is a suffix of `s`. */
  predicate EndsWith(s: string, e: string) {
    |e| <= |s| && s[|s| - |e|..] == e
  }

  /** The path with every trailing '/' removed. */
  function StripTrailingSlashes(s: string): (r: string)
    ensures |r| <= |s| && s[..|r|] == r
    ensures r == [] || r[|r| - 1] != '/'
  {
    if |s| > 0 && s[|s| - 1] == '/' then StripTrailingSlashes(s[..|s| - 1]) else s
  }

  /** The text after the last '/': a slash-free suffix that reaches back to a slash or the start. */
  function LastSegment(s: string): (r: string)
    ensures EndsWith(s, r)
    ensures '/' !in r
    ensures |r| < |s| ==> s[|s| - |r| - 1] == '/'
  {
    if s == [] || s[|s| - 1] == '/' then []
    else LastSegment(s[..|s| - 1]) + [s[|s| - 1]]
  }

  /** The index of the last '.', if there is one. */
  function LastDot(s: string): (r: Option<nat>)
    ensures r.None? ==> '.' !in s
    ensures r.Some? ==> r.value < |s| && s[r.value] == '.' && '.' !in s[r.value + 1..]
  {
    if s == [] then None
    else if s[|s| - 1] == '.' then Some(|s| - 1)
    else LastDot(s[..|s| - 1])
  }

  /**
   * path.extname: empty, or a single leading dot followed by dot-free,
   * slash-free text taken from the end of the path (trailing slashes aside).
   */
  function Extname(path: string): (r: string)
    ensures r == [] || (r[0] == '.' && '.' !in r[1..] && '/' !in r)
    ensures EndsWith(StripTrailingSlashes(path), r)
  {
    var t := StripTrailingSlashes(path);
    var seg := LastSegment(t);
    match LastDot(seg)
    case None => ""
    case Some(i) =>
      if i == 0 || seg == ".." then ""
      else
        SuffixFacts(t, seg, i);
        seg[i..]
  }

  /** The text from the last dot of the last segment is a dot, then dot- and slash-free text. */
  lemma SuffixFacts(t: string, seg: string, i: nat)
    requires EndsWith(t, seg) && '/' !in seg
    requires i < |seg| && seg[i] == '.' && '.' !in seg[i + 1..]
    ensures var e := seg[i..]; e[0] == '.' && '.' !in e[1..] && '/' !in e
    ensures EndsWith(t, seg[i..])
  {
    assert seg[i..][1..] == seg[i + 1..];
    forall k | 0 <= k < |seg| - i ensures seg[i..][k] != '/' {
      assert seg[i..][k] == seg[i + k];
    }
    assert t[|t| - |seg[i..]|..] == t[|t| - |seg|..][i..];
  }

  /** Appending slash-free text extends the last segment by that text. */
  lemma {:induction false} LastSegmentAppend(x: string, u: string)
    requires '/' !in u
    ensures LastSegment(x + u) == LastSegment(x) + u
    decreases |u|
  {
    if u != [] {
      var v := u[..|u| - 1];
      assert (x + u)[..|x + u| - 1] == x + v;
      assert u == v + [u[|u| - 1]];
      LastSegmentAppend(x, v);
    } else {
      assert x + u == x;
    }
  }

  /** A dot followed by dot-free text is the last dot. */
  lemma {:induction false} LastDotBefore(y: string, w: string)
    requires '.' !in w
    ensures LastDot(y + ['.'] + w) == Some(|y|)
    decreases |w|
  {
    if w == [] {
      assert y + ['.'] + w == y + ['.'];
    } else {
      var v := w[..|w| - 1];
      assert (y + ['.'] + w)[..|y + ['.'] + w| - 1] == y + ['.'] + v;
      LastDotBefore(y, v);
    }
  }

  /**
   * A name ending in `u` + `e`, with `u` non-empty and slash-free and `e` a
   * dot followed by at least one character that is neither a dot nor a slash,
   * has extension `e`, whatever comes before `u`.
   */
  lemma ExtnameOfTail(s: string, x: string, u: string, e: string)
    requires s == x + u + e
    requires u != [] && '/' !in u
    requires |e| >= 2 && e[0] == '.' && '.' !in e[1..] && '/' !in e
    ensures Extname(s) == e
  {
    var w := e[1..];
    assert e == "." + w;
    assert '/' !in w;
    assert s == x + u + "." + w;
    assert s[|s| - 1] == w[|w| - 1];
    assert StripTrailingSlashes(s) == s;
    var y := LastSegment(x) + u;
    var seg := y + ['.'] + w;
    SegmentOfTail(x, u, w);
    LastDotBefore(y, w);
    assert seg != ".." by { assert seg[|seg| - 1] == w[|w| - 1]; }
    assert seg[|y|..] == "." + w;
  }

  /**
   * A name ending in a dot has the extension ".", provided the dot follows
   * non-empty slash-free text other than a lone "." (whose segment would be "..").
   */
  lemma ExtnameOfTrailingDot(s: string, x: string, u: string)
    requires s == x + u + "."
    requires u != [] && u != "." && '/' !in u
    ensures Extname(s) == "."
  {
    assert StripTrailingSlashes(s) == s;
    var y := LastSegment(x) + u;
    var seg := y + ['.'] + [];
    assert x + u + "." + [] == s;
    SegmentOfTail(x, u, []);
    assert LastSegment(s) == seg;
    LastDotBefore(y, []);
    assert seg != ".." by {
      if |y| == 1 { assert y == u; }
    }
    assert seg[|y|..] == ".";
  }

  /**
   * A last segment whose only dot is its first character (".bashrc", ".")
   * has no extension.
   */
  lemma ExtnameOfDotfile(x: string, w: string)
    requires x == [] || x[|x| - 1] == '/'
    requires '.' !in w && '/' !in w
    ensures Extname(x + "." + w) == ""
  {
    var s := x + "." + w;
    assert s == x + ("." + w);
    assert s[|s| - 1] == ("." + w)[|w|];
    assert StripTrailingSlashes(s) == s;
    SlashFreeTail([], w);
    assert [] + "." + w == "." + w;
    LastSegmentAppend(x, "." + w);
    assert LastSegment(x) == [];
    assert LastSegment(s) == [] + ['.'] + w;
    LastDotBefore([], w);
  }

  /** The segment ".." has no extension. */
  lemma ExtnameOfDotDot(x: string)
    requires x == [] || x[|x| - 1] == '/'
    ensures Extname(x + "..") == ""
  {
    var s := x + "..";
    assert StripTrailingSlashes(s) == s;
    LastSegmentAppend(x, "..");
    assert LastSegment(x) == [];
    assert LastSegment(s) == "..";
  }

  /** Slashes appended to a path change neither its stripped form nor its extension. */
  lemma {:induction false} ExtnameIgnoresTrailingSlashes(s: string, t: string)
    requires forall k :: 0 <= k < |t| ==> t[k] == '/'
    ensures StripTrailingSlashes(s + t) == StripTrailingSlashes(s)
    ensures Extname(s + t) == Extname(s)
    decreases |t|
  {
    if t == [] {
      assert s + t == s;
    } else {
      var v := t[..|t| - 1];
      assert (s + t)[..|s + t| - 1] == s + v;
      ExtnameIgnoresTrailingSlashes(s, v);
    }
  }

  /** The last segment of `x` + `u` + "." + `w` is the last segment of `x` extended by the rest. */
  lemma SegmentOfTail(x: string, u: string, w: string)
    requires '/' !in u && '/' !in w
    ensures LastSegment(x + u + "." + w) == (LastSegment(x) + u) + ['.'] + w
  {
    var tail := u + "." + w;
    SlashFreeTail(u, w);
    LastSegmentAppend(x, tail);
    Regroup(x, u, w);
    Regroup(LastSegment(x), u, w);
  }

  lemma Regroup(x: string, u: string, w: string)
    ensures x + u + "." + w == x + (u + "." + w) == (x + u) + ['.'] + w
  {
  }

  lemma SlashFreeTail(u: string, w: string)
    requires '/' !in u && '/' !in w
    ensures '/' !in u + "." + w
  {
    var tail := u + "." + w;
    forall k | 0 <= k < |tail| ensures tail[k] != '/' {
      if k < |u| { assert tail[k] == u[k]; }
      else if k > |u| { assert tail[k] == w[k - |u| - 1]; }
    }
  }
}
