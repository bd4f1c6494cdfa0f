/** The argument checks of the conversion host's `download` endpoint: both
    `run` and `name` must be given, and the run directory, once resolved, must
    be the export base directory or lie below it. Paths are modelled as lists
    of segments; a resolved path holds no empty, "." or ".." segment. */
module ExportDownload {
  import opened Common

  datatype DownloadError = MissingArgument | InvalidRunDir

  predicate IsSeparator(c: char)
  {
    c == '/' || c == '\\'
  }

  /** A path with no empty, "." or ".." segment, as `Path.resolve` returns. */
  predicate IsResolved(p: seq<string>)
  {
    forall i :: 0 <= i < |p| ==> p[i] != "" && p[i] != "." && p[i] != ".."
  }

  /** `base` is `p` itself or one of `p.parents`. */
  predicate IsPrefixPath(base: seq<string>, p: seq<string>)
    ensures IsPrefixPath(base, p) <==> |base| <= |p| && p == base + p[|base|..]
  {
    |base| <= |p| && p[..|base|] == base
  }

  /** The segments of a path string, split at either separator. Empty
      segments (from doubled separators) are kept here and dropped by
      `Normalize`. */
  function Segments(s: string): (r: seq<string>)
    ensures |r| >= 1
    ensures forall i :: 0 <= i < |r| ==> forall j :: 0 <= j < |r[i]| ==> !IsSeparator(r[i][j])
  {
    if s == [] then [""]
    else if IsSeparator(s[|s| - 1]) then Segments(s[..|s| - 1]) + [""]
    else
      var init := Segments(s[..|s| - 1]);
      init[..|init| - 1] + [init[|init| - 1] + [s[|s| - 1]]]
  }

  /** The path text with every backslash read as `/`. */
  function Slashed(s: string): (r: string)
    ensures |r| == |s|
    ensures forall i :: 0 <= i < |s| ==> r[i] == if IsSeparator(s[i]) then '/' else s[i]
  {
    if s == [] then [] else Slashed(s[..|s| - 1]) + [if IsSeparator(s[|s| - 1]) then '/' else s[|s| - 1]]
  }

  /** `"/".join(ss)` for a non-empty list of segments. */
  function JoinSlash(ss: seq<string>): string
    requires |ss| >= 1
  {
    if |ss| == 1 then ss[0] else JoinSlash(ss[..|ss| - 1]) + "/" + ss[|ss| - 1]
  }

  /** The segments make up the path: joined with `/` they give back the
      path text, with a backslash read as `/`. */
  lemma {:induction false} SegmentsJoin(s: string)
    ensures JoinSlash(Segments(s)) == Slashed(s)
  {
    if s != [] {
      var init, c := s[..|s| - 1], s[|s| - 1];
      SegmentsJoin(init);
      assert Slashed(s) == Slashed(init) + [if IsSeparator(c) then '/' else c];
      if IsSeparator(c) {
        JoinSeparator(Segments(init));
      } else {
        JoinExtendLast(Segments(init), c);
      }
    }
  }

  lemma JoinSeparator(prev: seq<string>)
    requires |prev| >= 1
    ensures JoinSlash(prev + [""]) == JoinSlash(prev) + "/"
  {
    assert (prev + [""])[..|prev|] == prev;
  }

  lemma JoinExtendLast(prev: seq<string>, c: char)
    requires |prev| >= 1
    ensures JoinSlash(prev[..|prev| - 1] + [prev[|prev| - 1] + [c]]) == JoinSlash(prev) + [c]
  {
    var r := prev[..|prev| - 1] + [prev[|prev| - 1] + [c]];
    if |prev| > 1 {
      assert r[..|r| - 1] == prev[..|prev| - 1];
    }
  }

  /** The segments that name a directory, dropping empty and "." ones. */
  function Named(rest: seq<string>): (r: seq<string>)
    ensures forall i :: 0 <= i < |r| ==> r[i] != "" && r[i] != "."
    ensures |r| <= |rest|
  {
    if rest == [] then []
    else (if rest[0] == "" || rest[0] == "." then [] else [rest[0]]) + Named(rest[1..])
  }

  /** Resolve the segments `rest` starting from the resolved directory `acc`:
      empty and "." segments stay put, ".." goes to the parent (the root is
      its own parent), any other segment descends. */
  function Normalize(acc: seq<string>, rest: seq<string>): (r: seq<string>)
    requires IsResolved(acc)
    ensures IsResolved(r)
    decreases |rest|
  {
    if rest == [] then acc
    else if rest[0] == "" || rest[0] == "." then Normalize(acc, rest[1..])
    else if rest[0] == ".." then Normalize(if acc == [] then [] else acc[..|acc| - 1], rest[1..])
    else Normalize(acc + [rest[0]], rest[1..])
  }

  /** `(base / run).resolve()`: a `run` that starts with a separator is a
      rooted path and replaces the base; otherwise it is joined onto it. */
  function ResolveRun(base: seq<string>, run: string): (r: seq<string>)
    requires IsResolved(base)
    ensures IsResolved(r)
  {
    if run != [] && IsSeparator(run[0]) then Normalize([], Segments(run))
    else Normalize(base, Segments(run))
  }

  /** The checks of `download` before the file lookup: returns the resolved
      run directory, or the reason the request is refused. */
  function CheckDownload(base: seq<string>, run: string, name: string): (r: Result<seq<string>, DownloadError>)
    requires IsResolved(base)
    ensures run == "" || name == "" <==> r == Failure(MissingArgument)
    ensures r.Success? ==> IsPrefixPath(base, r.value) && IsResolved(r.value)
    ensures r.Success? ==> r.value == ResolveRun(base, run)
    ensures r == Failure(InvalidRunDir) <==>
      run != "" && name != "" && !IsPrefixPath(base, ResolveRun(base, run))
  {
    if run == "" || name == "" then Failure(MissingArgument)
    else
      var target := ResolveRun(base, run);
      if !IsPrefixPath(base, target) then Failure(InvalidRunDir) else Success(target)
  }

  /** Without ".." segments, resolving only appends the named segments. */
  lemma {:induction false} NormalizeDescends(acc: seq<string>, rest: seq<string>)
    requires IsResolved(acc)
    requires forall i :: 0 <= i < |rest| ==> rest[i] != ".."
    ensures IsPrefixPath(acc, Normalize(acc, rest))
    decreases |rest|
  {
    if rest != [] {
      if rest[0] == "" || rest[0] == "." {
        NormalizeDescends(acc, rest[1..]);
      } else {
        var acc' := acc + [rest[0]];
        NormalizeDescends(acc', rest[1..]);
        var r := Normalize(acc', rest[1..]);
        assert r[..|acc'|] == acc';
        assert r[..|acc|] == acc'[..|acc|] == acc;
      }
    }
  }

  /** Without ".." segments, resolving appends exactly the named segments. */
  lemma {:induction false} NormalizeNoParent(acc: seq<string>, rest: seq<string>)
    requires IsResolved(acc)
    requires forall i :: 0 <= i < |rest| ==> rest[i] != ".."
    ensures Normalize(acc, rest) == acc + Named(rest)
    decreases |rest|
  {
    if rest != [] {
      var tail := rest[1..];
      assert forall i :: 0 <= i < |tail| ==> tail[i] == rest[i + 1];
      if rest[0] == "" || rest[0] == "." {
        NormalizeNoParent(acc, tail);
        assert Named(rest) == Named(tail);
      } else {
        var acc' := acc + [rest[0]];
        ResolvedSnoc(acc, rest[0]);
        NormalizeNoParent(acc', tail);
        assert Named(rest) == [rest[0]] + Named(tail);
        assert acc' + Named(tail) == acc + ([rest[0]] + Named(tail));
      }
    }
  }

  lemma ResolvedSnoc(acc: seq<string>, name: string)
    requires IsResolved(acc) && name != "" && name != "." && name != ".."
    ensures IsResolved(acc + [name])
  {
  }

  /** A ".." right after a named segment cancels it. */
  lemma NameThenParent(acc: seq<string>, name: string, rest: seq<string>)
    requires IsResolved(acc) && name != "" && name != "." && name != ".."
    ensures Normalize(acc, [name, ".."] + rest) == Normalize(acc, rest)
  {
    var all := [name, ".."] + rest;
    assert all[0] == name && all[1..] == [".."] + rest;
    assert ([".."] + rest)[0] == ".." && ([".."] + rest)[1..] == rest;
    assert (acc + [name])[..|acc|] == acc;
  }

  /** ".." at the root stays at the root. */
  lemma ParentOfRoot(rest: seq<string>)
    ensures Normalize([], [".."] + rest) == Normalize([], rest)
  {
    assert ([".."] + rest)[0] == ".." && ([".."] + rest)[1..] == rest;
  }

  /** ".." below any directory other than the root goes to its parent: the
      last segment is dropped. */
  lemma ParentOfDir(acc: seq<string>, rest: seq<string>)
    requires IsResolved(acc) && acc != []
    ensures Normalize(acc, [".."] + rest) == Normalize(acc[..|acc| - 1], rest)
  {
    assert ([".."] + rest)[0] == ".." && ([".."] + rest)[1..] == rest;
  }

  /** Splitting `p/r` gives the segments of `p` followed by those of `r`. */
  lemma {:induction false} SegmentsAppendSep(p: string, r: string)
    ensures Segments(p + "/" + r) == Segments(p) + Segments(r)
    decreases |r|
  {
    if r == [] {
      assert p + "/" + r == p + ['/'];
      SegmentsSnoc(p, '/');
      assert Segments(r) == [""];
    } else {
      var r', c := r[..|r| - 1], r[|r| - 1];
      var q := p + "/" + r';
      assert p + "/" + r == q + [c] && r == r' + [c];
      SegmentsAppendSep(p, r');
      var a, b := Segments(p), Segments(r');
      assert Segments(q) == a + b;
      SegmentsSnoc(q, c);
      SegmentsSnoc(r', c);
      if IsSeparator(c) {
        assert Segments(q + [c]) == (a + b) + [""];
        assert Segments(r' + [c]) == b + [""];
      } else {
        ExtendLastAppend(a, b, c);
        assert Segments(q + [c]) == a + (b[..|b| - 1] + [b[|b| - 1] + [c]]);
        assert Segments(r' + [c]) == b[..|b| - 1] + [b[|b| - 1] + [c]];
      }
    }
  }

  /** One more character: a separator opens a new empty segment, any other
      character extends the last one. */
  lemma {:induction false} SegmentsSnoc(s: string, c: char)
    ensures IsSeparator(c) ==> Segments(s + [c]) == Segments(s) + [""]
    ensures !IsSeparator(c) ==>
      Segments(s + [c]) == Segments(s)[..|Segments(s)| - 1] + [Segments(s)[|Segments(s)| - 1] + [c]]
  {
    assert (s + [c])[..|s|] == s && (s + [c])[|s|] == c;
  }

  lemma ExtendLastAppend(a: seq<string>, b: seq<string>, c: char)
    requires |b| >= 1
    ensures (a + b)[..|a + b| - 1] + [(a + b)[|a + b| - 1] + [c]] == a + (b[..|b| - 1] + [b[|b| - 1] + [c]])
  {
    assert (a + b)[..|a + b| - 1] == a + b[..|b| - 1];
  }

  /** A relative run `../r` whose rest has no ".." climbs one level from a
      base below the root, then descends along the named segments of `r`. */
  lemma {:induction false} ResolveParentRun(base: seq<string>, r: string)
    requires IsResolved(base) && base != []
    requires forall i :: 0 <= i < |Segments(r)| ==> Segments(r)[i] != ".."
    ensures ResolveRun(base, "../" + r) == base[..|base| - 1] + Named(Segments(r))
  {
    assert "../" + r == ".." + "/" + r;
    SegmentsAppendSep("..", r);
    SegmentsOfParent();
    ParentOfDir(base, Segments(r));
    NormalizeNoParent(base[..|base| - 1], Segments(r));
  }

  /** `run=../r` stays inside the base only when `r` descends back into
      the base's own last directory; a run into a sibling directory, or
      to the parent itself, is refused. */
  lemma {:induction false} SiblingRunRefused(base: seq<string>, r: string, name: string)
    requires IsResolved(base) && base != [] && name != ""
    requires forall i :: 0 <= i < |Segments(r)| ==> Segments(r)[i] != ".."
    ensures CheckDownload(base, "../" + r, name) == Failure(InvalidRunDir)
      <==> Named(Segments(r)) == [] || Named(Segments(r))[0] != base[|base| - 1]
  {
    ResolveParentRun(base, r);
    var n, d := Named(Segments(r)), base[..|base| - 1];
    var target := d + n;
    if n != [] && n[0] == base[|base| - 1] {
      assert target[..|base|] == d + [n[0]];
      assert base == d + [base[|base| - 1]];
    } else if n == [] {
      assert |target| < |base|;
    } else {
      assert target[|base| - 1] != base[|base| - 1];
    }
  }

  /** Without ".." segments, a rooted run names the path of its segments
      from the root, and a relative one is that path appended to the base. */
  lemma ResolveRunNoParent(base: seq<string>, run: string)
    requires IsResolved(base)
    requires forall i :: 0 <= i < |Segments(run)| ==> Segments(run)[i] != ".."
    ensures run != [] && IsSeparator(run[0]) ==> ResolveRun(base, run) == Named(Segments(run))
    ensures !(run != [] && IsSeparator(run[0])) ==> ResolveRun(base, run) == base + Named(Segments(run))
  {
    NormalizeNoParent([], Segments(run));
    NormalizeNoParent(base, Segments(run));
    assert [] + Named(Segments(run)) == Named(Segments(run));
  }

  /** A relative run with no ".." segment is always accepted. */
  lemma RelativeRunAccepted(base: seq<string>, run: string, name: string)
    requires IsResolved(base)
    requires run != "" && name != "" && !IsSeparator(run[0])
    requires forall i :: 0 <= i < |Segments(run)| ==> Segments(run)[i] != ".."
    ensures CheckDownload(base, run, name).Success?
  {
    NormalizeDescends(base, Segments(run));
  }

  /** `run=..` climbs out of any base below the root and is refused. */
  lemma ParentRunRefused(base: seq<string>, name: string)
    requires IsResolved(base) && base != [] && name != ""
    ensures CheckDownload(base, "..", name) == Failure(InvalidRunDir)
  {
    SegmentsOfParent();
    assert [".."][1..] == [];
    assert Normalize(base, [".."]) == base[..|base| - 1];
  }

  lemma SegmentsOfParent()
    ensures Segments("..") == [".."]
  {
    assert ".."[..1] == "." && "."[..0] == "";
    assert Segments(".") == ["."] by {
      assert "" + ['.'] == ".";
    }
    assert "." + ['.'] == "..";
  }
}
