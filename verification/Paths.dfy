/** URL paths: normalization, segments, and templates with whole-segment placeholders. */
module Paths {
  import opened Common

  function NormalizePath(p: string): (r: string)
    ensures r != "" && r[0] == '/'
  {
    if p == "" then "/"
    else
      var q := if |p| > 1 && p[|p| - 1] == '/' then p[..|p| - 1] else p;
      if q[0] != '/' then "/" + q else q
  }

  /** Normalizing puts a slash in front of a path that has none, takes one away at the end, and does nothing else. */
  lemma NormalizePathIs(p: string)
    ensures NormalizePath("") == "/" && NormalizePath("/") == "/"
    ensures p != "" && p[|p| - 1] != '/' ==> NormalizePath(p) == NormalizePath(p + "/") == if p[0] == '/' then p else "/" + p
    ensures p != "" && p[0] == '/' ==> NormalizePath(p + "/") == p
  {
    assert (p + "/")[..|p|] == p;
  }

  predicate IsTemplated(p: string) {
    '{' in p && '}' in p
  }

  // ---- Segments ------------------------------------------------------------------------------

  /** The reference: the maximal runs of characters between slashes. */
  function Segments(p: string): seq<string>
    decreases |p|
  {
    if p == "" then []
    else if p[0] == '/' then Segments(p[1..])
    else [p[..FirstAt(p, '/')]] + Segments(p[FirstAt(p, '/')..])
  }

  /** A segment: not empty and free of slashes. */
  predicate IsSegment(s: string) {
    s != "" && '/' !in s
  }

  lemma {:induction false} SegmentsAreSegments(p: string)
    ensures forall i :: 0 <= i < |Segments(p)| ==> IsSegment(Segments(p)[i])
    decreases |p|
  {
    if p != "" {
      SegmentsAreSegments(if p[0] == '/' then p[1..] else p[FirstAt(p, '/')..]);
    }
  }

  /** A slash anywhere separates: what is left of it and what is right of it do not influence each other. */
  lemma {:induction false} SegmentsSplit(a: string, b: string)
    ensures Segments(a + "/" + b) == Segments(a) + Segments(b)
    decreases |a|
  {
    var p := a + "/" + b;
    if a == "" {
      assert p[1..] == b;
    } else if a[0] == '/' {
      assert p[1..] == a[1..] + "/" + b;
      SegmentsSplit(a[1..], b);
    } else {
      var n := FirstAt(a, '/');
      FirstAtIs(p, '/', n);
      assert p[..n] == a[..n] && p[n..] == a[n..] + "/" + b;
      SegmentsSplit(a[n..], b);
      AppendAssociates([a[..n]], Segments(a[n..]), Segments(b));
    }
  }

  /** Slashes in front, at the end, or doubled inside make no difference. */
  lemma ExtraSlashes(a: string, b: string)
    ensures Segments("/" + a) == Segments(a) == Segments(a + "/")
    ensures Segments(a + "//" + b) == Segments(a + "/" + b)
  {
    assert ("/" + a)[1..] == a;
    assert a + "/" == a + "/" + "";
    SegmentsSplit(a, "");
    assert a + "//" + b == a + "/" + ("/" + b);
    SegmentsSplit(a, "/" + b);
    SegmentsSplit(a, b);
    assert ("/" + b)[1..] == b;
  }

  lemma NormalizingKeepsSegments(p: string)
    ensures Segments(NormalizePath(p)) == Segments(p)
  {
    if p == "" {
      assert "/"[1..] == "";
    } else {
      var q := if |p| > 1 && p[|p| - 1] == '/' then p[..|p| - 1] else p;
      if q != p {
        assert p == q + "/";
        ExtraSlashes(q, "");
      }
      ExtraSlashes(q, "");
    }
  }

  function Join(segs: seq<string>): string {
    if segs == [] then "" else "/" + segs[0] + Join(segs[1..])
  }

  lemma OneSegment(s: string)
    requires IsSegment(s)
    ensures Segments(s) == [s]
  {
    FirstAtIs(s, '/', |s|);
    assert s[..|s|] == s && s[|s|..] == "";
  }

  /** Splitting a joined list of segments returns the list. */
  lemma {:induction false} SplitOfJoin(segs: seq<string>)
    requires forall i :: 0 <= i < |segs| ==> IsSegment(segs[i])
    ensures Segments(Join(segs)) == segs
  {
    if segs != [] {
      var rest := Join(segs[1..]);
      SplitOfJoin(segs[1..]);
      OneSegment(segs[0]);
      assert ("/" + segs[0] + rest)[1..] == segs[0] + rest;
      if segs[1..] == [] {
        assert segs[0] + rest == segs[0];
      } else {
        assert rest == "/" + rest[1..];
        assert segs[0] + rest == segs[0] + "/" + rest[1..];
        SegmentsSplit(segs[0], rest[1..]);
      }
      assert segs == [segs[0]] + segs[1..];
    }
  }

  // ---- Splitting as the source does it -------------------------------------------------------

  function TrimLeft(p: string): string {
    if p != "" && p[0] == '/' then TrimLeft(p[1..]) else p
  }

  function TrimRight(p: string): string {
    if p != "" && p[|p| - 1] == '/' then TrimRight(p[..|p| - 1]) else p
  }

  /** All parts between slashes, empty ones included. */
  function SplitAll(p: string): seq<string>
    decreases |p|
  {
    var n := FirstAt(p, '/');
    if n == |p| then [p] else [p[..n]] + SplitAll(p[n + 1..])
  }

  function NotEmpty(): string -> bool {
    (s: string) => s != ""
  }

  lemma {:induction false} TrimLeftKeeps(p: string)
    ensures Segments(TrimLeft(p)) == Segments(p)
  {
    if p != "" && p[0] == '/' {
      TrimLeftKeeps(p[1..]);
    }
  }

  lemma {:induction false} TrimRightKeeps(p: string)
    ensures Segments(TrimRight(p)) == Segments(p)
  {
    if p != "" && p[|p| - 1] == '/' {
      var q := p[..|p| - 1];
      TrimRightKeeps(q);
      assert p == q + "/";
      ExtraSlashes(q, "");
    }
  }

  lemma {:induction false} NonEmptyPartsAreSegments(p: string)
    ensures Filter(SplitAll(p), NotEmpty()) == Segments(p)
    decreases |p|
  {
    var n := FirstAt(p, '/');
    if n == |p| {
      assert SplitAll(p) == [p] && [p][1..] == [];
      if p != "" {
        OneSegment(p);
      }
    } else {
      var rest := SplitAll(p[n + 1..]);
      NonEmptyPartsAreSegments(p[n + 1..]);
      assert SplitAll(p)[1..] == rest;
      assert p == p[..n] + "/" + p[n + 1..];
      SegmentsSplit(p[..n], p[n + 1..]);
      if n > 0 {
        OneSegment(p[..n]);
      }
    }
  }

  method SplitPath(p: string) returns (out: seq<string>)
    ensures out == Segments(p)
  {
    var q := TrimRight(TrimLeft(p));
    TrimLeftKeeps(p);
    TrimRightKeeps(TrimLeft(p));
    if q == "" {
      return [];
    }
    var parts := SplitAll(q);
    NonEmptyPartsAreSegments(q);
    out := [];
    for i := 0 to |parts|
      invariant out == Filter(parts[..i], NotEmpty())
    {
      FilterNext(parts, i, NotEmpty());
      if parts[i] == "" {
        continue;
      }
      out := out + [parts[i]];
    }
    assert parts[..|parts|] == parts;
  }

  // ---- Templates -----------------------------------------------------------------------------

  predicate IsPlaceholder(s: string) {
    |s| >= 2 && s[0] == '{' && s[|s| - 1] == '}'
  }

  predicate SegmentMatches(ps: string, s: string) {
    IsPlaceholder(ps) || ps == s
  }

  /** A segment in braces matches any segment, every other one itself alone. */
  lemma SegmentMatchesIff(ps: string, s: string)
    ensures SegmentMatches(ps, s) <==> ps == s || exists x :: ps == "{" + x + "}"
  {
    if IsPlaceholder(ps) {
      assert ps == "{" + ps[1..|ps| - 1] + "}";
    }
  }

  /** The path's segments fit the pattern's one by one. */
  predicate Matches(pattern: string, path: string) {
    && |Segments(pattern)| == |Segments(path)|
    && forall i :: 0 <= i < |Segments(path)| ==> SegmentMatches(Segments(pattern)[i], Segments(path)[i])
  }

  method MatchTemplatePath(pattern: string, path: string) returns (matches: bool)
    ensures matches == Matches(pattern, path)
  {
    NormalizingKeepsSegments(pattern);
    NormalizingKeepsSegments(path);
    var pSegs := SplitPath(NormalizePath(pattern));
    var pathSegs := SplitPath(NormalizePath(path));
    if |pSegs| != |pathSegs| {
      return false;
    }
    for i := 0 to |pSegs|
      invariant forall j :: 0 <= j < i ==> SegmentMatches(pSegs[j], pathSegs[j])
    {
      if |pSegs[i]| >= 2 && pSegs[i][0] == '{' && pSegs[i][|pSegs[i]| - 1] == '}' {
        continue;
      }
      if pSegs[i] != pathSegs[i] {
        return false;
      }
    }
    matches := true;
  }

  /** The pattern with its placeholders filled in. */
  function Instantiate(segs: seq<string>, fill: seq<string>): (r: seq<string>)
    requires |fill| == |segs|
    ensures |r| == |segs|
  {
    seq(|segs|, i requires 0 <= i < |segs| => if IsPlaceholder(segs[i]) then fill[i] else segs[i])
  }

  /** A path matches exactly when some choice of segments for the placeholders turns the pattern into it. */
  lemma MatchesIffInstance(pattern: string, path: string)
    ensures Matches(pattern, path) <==>
      exists fill: seq<string> ::
        && |fill| == |Segments(pattern)|
        && (forall i :: 0 <= i < |fill| ==> IsSegment(fill[i]))
        && Segments(path) == Instantiate(Segments(pattern), fill)
  {
    if Matches(pattern, path) {
      SegmentsAreSegments(path);
      assert Segments(path) == Instantiate(Segments(pattern), Segments(path));
    }
  }

  /** Matching sees segments only, so normalizing either side changes nothing. */
  lemma MatchingIgnoresNormalization(pattern: string, path: string)
    ensures Matches(NormalizePath(pattern), path) == Matches(pattern, path) == Matches(pattern, NormalizePath(path))
  {
    NormalizingKeepsSegments(pattern);
    NormalizingKeepsSegments(path);
  }

  /** Filling a pattern in and joining the result gives a path that matches it. */
  lemma InstancesMatch(pattern: string, fill: seq<string>)
    requires |fill| == |Segments(pattern)| && forall i :: 0 <= i < |fill| ==> IsSegment(fill[i])
    ensures Matches(pattern, Join(Instantiate(Segments(pattern), fill)))
  {
    SegmentsAreSegments(pattern);
    SplitOfJoin(Instantiate(Segments(pattern), fill));
  }

  /** Normalizing strips one trailing slash, so a second time changes nothing exactly when the path, unless it is
      just two slashes, does not end in two of them. */
  lemma NormalizingIsIdempotentIff(p: string)
    ensures NormalizePath(NormalizePath(p)) == NormalizePath(p) <==> !(|p| > 2 && p[|p| - 2..] == "//")
  {
    assert |p| > 2 ==> (p[|p| - 2..] == "//" <==> p[|p| - 2] == '/' && p[|p| - 1] == '/');
  }

  lemma NormalizingIsNotIdempotent()
    ensures NormalizePath("/a//") == "/a/" && NormalizePath(NormalizePath("/a//")) == "/a"
  {
  }
}
