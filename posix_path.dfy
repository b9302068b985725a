/** The POSIX flavour of Node's `path.normalize`, `path.join` and the string test
    `String.prototype.startsWith`, as strings split into `/`-separated segments. */
module PosixPath {

  /** `s.split('/')`: the segments between slashes, empty ones included. */
  function Split(s: string): (segs: seq<string>)
    ensures |segs| >= 1
    ensures forall i :: 0 <= i < |segs| ==> '/' !in segs[i]
    decreases |s|
  {
    if |s| == 0 then [""]
    else if s[0] == '/' then [""] + Split(s[1..])
    else
      var rest := Split(s[1..]);
      [[s[0]] + rest[0]] + rest[1..]
  }

  /** `segs.join('/')`. */
  function JoinSegs(segs: seq<string>): string
    decreases |segs|
  {
    if |segs| == 0 then ""
    else if |segs| == 1 then segs[0]
    else segs[0] + "/" + JoinSegs(segs[1..])
  }

  /** A segment that names a directory entry: not empty, not `.`, not `..`, no slash. */
  predicate IsName(seg: string) {
    seg != "" && seg != "." && seg != ".." && '/' !in seg
  }

  predicate AllNames(segs: seq<string>) {
    forall i :: 0 <= i < |segs| ==> IsName(segs[i])
  }

  predicate NoDotDot(segs: seq<string>) {
    forall i :: 0 <= i < |segs| ==> segs[i] != ".."
  }

  /** One step of the segment stack kept by Node's `normalizeString`:
      empty and `.` segments are dropped, `..` pops a name, or is kept when the
      path is relative and there is nothing to pop, and any other segment is pushed. */
  function Step(stack: seq<string>, seg: string, allowAboveRoot: bool): seq<string> {
    if seg == "" || seg == "." then stack
    else if seg == ".." then
      if |stack| > 0 && stack[|stack| - 1] != ".." then stack[..|stack| - 1]
      else if allowAboveRoot then stack + [".."]
      else stack
    else stack + [seg]
  }

  /** The segments left after resolving `segs` from left to right. */
  function Resolve(segs: seq<string>, allowAboveRoot: bool): seq<string>
    decreases |segs|
  {
    if segs == [] then []
    else Step(Resolve(segs[..|segs| - 1], allowAboveRoot), segs[|segs| - 1], allowAboveRoot)
  }

  /** The segments of `segs` that are neither empty nor `.`, in order. */
  function Filter(segs: seq<string>): seq<string>
    decreases |segs|
  {
    if segs == [] then []
    else
      var last := segs[|segs| - 1];
      Filter(segs[..|segs| - 1]) + (if last == "" || last == "." then [] else [last])
  }

  /** `path.posix.normalize(p)`. */
  function Normalize(p: string): string {
    if p == "" then "."
    else
      var isAbsolute := p[0] == '/';
      var trailingSeparator := p[|p| - 1] == '/';
      var body := JoinSegs(Resolve(Split(p), !isAbsolute));
      if body == "" then
        (if isAbsolute then "/" else if trailingSeparator then "./" else ".")
      else
        (if isAbsolute then "/" else "") + body + (if trailingSeparator then "/" else "")
  }

  /** `path.posix.join(a, b)`: the non-empty arguments joined by `/`, then normalised. */
  function Join(a: string, b: string): string {
    if a == "" && b == "" then "."
    else Normalize(if a == "" then b else if b == "" then a else a + "/" + b)
  }

  /** `s.startsWith(prefix)`: a character prefix, with no regard for segment boundaries. */
  predicate StartsWith(s: string, prefix: string) {
    |prefix| <= |s| && s[..|prefix|] == prefix
  }

  /** The absolute directory `/n1/n2/.../nk` made of the given names. */
  function Dir(names: seq<string>): string {
    "/" + JoinSegs(names)
  }

  // ---------------------------------------------------------------------------
  // Split and JoinSegs

  lemma {:induction false} SplitAround(a: string, b: string)
    ensures Split(a + "/" + b) == Split(a) + Split(b)
    decreases |a|
  {
    if |a| == 0 {
      assert a + "/" + b == "/" + b;
      assert ("/" + b)[1..] == b;
    } else {
      assert (a + "/" + b)[0] == a[0];
      assert (a + "/" + b)[1..] == a[1..] + "/" + b;
      SplitAround(a[1..], b);
    }
  }

  lemma {:induction false} JoinSegsCons(c: char, x: string, rest: seq<string>)
    ensures JoinSegs([[c] + x] + rest) == [c] + JoinSegs([x] + rest)
  {
    var l := [[c] + x] + rest;
    var m := [x] + rest;
    if |rest| == 0 {
    } else {
      assert l[1..] == rest && m[1..] == rest;
    }
  }

  /** Joining the pieces of a split gives back the string. */
  lemma {:induction false} JoinSplit(s: string)
    ensures JoinSegs(Split(s)) == s
    decreases |s|
  {
    if |s| == 0 {
    } else if s[0] == '/' {
      JoinSplit(s[1..]);
      var segs := [""] + Split(s[1..]);
      assert segs[1..] == Split(s[1..]);
      assert s == "/" + s[1..];
    } else {
      JoinSplit(s[1..]);
      var rest := Split(s[1..]);
      JoinSegsCons(s[0], rest[0], rest[1..]);
      assert [rest[0]] + rest[1..] == rest;
      assert s == [s[0]] + s[1..];
    }
  }

  /** Splitting a join of slash-free pieces gives back the pieces. */
  lemma {:induction false} SplitJoin(segs: seq<string>)
    requires |segs| >= 1
    requires forall i :: 0 <= i < |segs| ==> '/' !in segs[i]
    ensures Split(JoinSegs(segs)) == segs
    decreases |segs|
  {
    if |segs| == 1 {
      SplitNoSlash(segs[0]);
    } else {
      SplitJoin(segs[1..]);
      SplitAround(segs[0], JoinSegs(segs[1..]));
      SplitNoSlash(segs[0]);
      assert [segs[0]] + segs[1..] == segs;
    }
  }

  lemma {:induction false} SplitNoSlash(s: string)
    requires '/' !in s
    ensures Split(s) == [s]
    decreases |s|
  {
    if |s| > 0 {
      assert s[0] in s;
      assert forall c :: c in s[1..] ==> c in s;
      SplitNoSlash(s[1..]);
      assert s == [s[0]] + s[1..];
    }
  }

  lemma {:induction false} JoinSegsAppend(x: seq<string>, y: seq<string>)
    requires |x| >= 1 && |y| >= 1
    ensures JoinSegs(x + y) == JoinSegs(x) + "/" + JoinSegs(y)
    decreases |x|
  {
    if |x| == 1 {
      assert (x + y)[1..] == y;
    } else {
      assert (x + y)[1..] == x[1..] + y;
      JoinSegsAppend(x[1..], y);
    }
  }

  /** The join of names ends in the last character of the last name, never in a slash. */
  lemma {:induction false} JoinSegsLast(segs: seq<string>)
    requires |segs| >= 1 && AllNames(segs)
    ensures |JoinSegs(segs)| >= 1
    ensures JoinSegs(segs)[|JoinSegs(segs)| - 1] != '/'
    decreases |segs|
  {
    var last := segs[|segs| - 1];
    assert last[|last| - 1] in last;
    if |segs| > 1 {
      JoinSegsLast(segs[1..]);
      assert segs[1..][|segs[1..]| - 1] == last;
    }
  }

  // ---------------------------------------------------------------------------
  // Resolve

  /** Resolving segments that hold no `..` only drops the empty and `.` ones. */
  lemma {:induction false} ResolveAppendNoDotDot(a: seq<string>, b: seq<string>, allowAboveRoot: bool)
    requires NoDotDot(b)
    ensures Resolve(a + b, allowAboveRoot) == Resolve(a, allowAboveRoot) + Filter(b)
    decreases |b|
  {
    if b == [] {
      assert a + b == a;
    } else {
      var b' := b[..|b| - 1];
      assert (a + b)[..|a + b| - 1] == a + b';
      assert (a + b)[|a + b| - 1] == b[|b| - 1];
      assert NoDotDot(b') by {
        forall i | 0 <= i < |b'| ensures b'[i] != ".." { assert b'[i] == b[i]; }
      }
      ResolveAppendNoDotDot(a, b', allowAboveRoot);
    }
  }

  lemma {:induction false} FilterNames(segs: seq<string>)
    requires AllNames(segs)
    ensures Filter(segs) == segs
    decreases |segs|
  {
    if segs != [] {
      var s' := segs[..|segs| - 1];
      assert AllNames(s') by {
        forall i | 0 <= i < |s'| ensures IsName(s'[i]) { assert s'[i] == segs[i]; }
      }
      FilterNames(s');
      assert s' + [segs[|segs| - 1]] == segs;
    }
  }

  /** Without `allowAboveRoot` (an absolute path), resolution leaves only names. */
  lemma {:induction false} ResolveAbsoluteNames(segs: seq<string>)
    requires forall i :: 0 <= i < |segs| ==> '/' !in segs[i]
    ensures AllNames(Resolve(segs, false))
    decreases |segs|
  {
    if segs != [] {
      var s' := segs[..|segs| - 1];
      ResolveAbsoluteNames(s');
      var st := Resolve(s', false);
      var seg := segs[|segs| - 1];
      if seg == "" || seg == "." || seg == ".." {
        var r := Step(st, seg, false);
        assert forall i :: 0 <= i < |r| ==> r[i] == st[i];
      } else {
        var r := st + [seg];
        assert forall i :: 0 <= i < |st| ==> r[i] == st[i];
      }
    }
  }

  lemma {:induction false} ResolveNames(names: seq<string>)
    requires AllNames(names)
    ensures Resolve([""] + names, false) == names
  {
    assert NoDotDot(names);
    ResolveAppendNoDotDot([""], names, false);
    assert Resolve([""], false) == Step([], "", false) == [];
    FilterNames(names);
  }

  // ---------------------------------------------------------------------------
  // Normalize

  /** The segments of an absolute directory: a leading empty one, then its names. */
  lemma DirSplit(names: seq<string>)
    requires |names| >= 1 && AllNames(names)
    ensures Split(Dir(names)) == [""] + names
  {
    SplitJoin(names);
    assert Dir(names)[1..] == JoinSegs(names);
  }

  /** An absolute directory of plain names is already normal. */
  lemma {:induction false} NormalizeDir(names: seq<string>)
    requires |names| >= 1 && AllNames(names)
    ensures Normalize(Dir(names)) == Dir(names)
  {
    DirSplit(names);
    ResolveNames(names);
    JoinSegsLast(names);
    var d := Dir(names);
    assert d[|d| - 1] == JoinSegs(names)[|JoinSegs(names)| - 1];
  }

  /** Normalising an absolute path twice is the same as normalising it once. */
  lemma {:induction false} NormalizeIdempotentAbsolute(p: string)
    requires p != "" && p[0] == '/'
    ensures Normalize(Normalize(p)) == Normalize(p)
  {
    var segs := Resolve(Split(p), false);
    ResolveAbsoluteNames(Split(p));
    var n := Normalize(p);
    if segs == [] {
      assert n == "/";
      assert Split("/") == ["", ""] by {
        var slash: string := "/";
        assert slash[1..] == "";
      }
      assert Resolve(["", ""], false) == [] by {
        assert ["", ""][..1] == [""];
      }
    } else {
      var body := JoinSegs(segs);
      JoinSegsLast(segs);
      if p[|p| - 1] == '/' {
        assert n == Dir(segs) + "/";
        assert n == Dir(segs) + "/" + "";
        SplitAround(Dir(segs), "");
        DirSplit(segs);
        assert Split(n) == [""] + segs + [""];
        assert NoDotDot([""]);
        ResolveAppendNoDotDot([""] + segs, [""], false);
        ResolveNames(segs);
        assert Filter([""]) == [] by { assert [""][..0] == []; }
        assert Resolve(Split(n), false) == segs;
      } else {
        assert n == Dir(segs);
        NormalizeDir(segs);
      }
    }
  }

  /** `path.join` on an absolute directory and a non-empty path: the normal form of
      the directory, a slash and the path. */
  lemma JoinDir(names: seq<string>, p: string)
    requires |names| >= 1 && AllNames(names) && p != ""
    ensures Join(Dir(names), p) == Normalize(Dir(names) + "/" + p)
  {
  }

  /** The segments that `Join(Dir(names), p)` resolves to, when `p` has no `..`:
      the directory's names followed by the non-empty, non-`.` segments of `p`. */
  lemma {:induction false} JoinedSegments(names: seq<string>, p: string)
    requires |names| >= 1 && AllNames(names)
    ensures Split(Dir(names) + "/" + p) == [""] + names + Split(p)
  {
    SplitAround(Dir(names), p);
    DirSplit(names);
  }

  /** The normal form of an absolute path whose segments resolve to a non-empty list. */
  lemma NormalizeAbsolute(j: string, segs: seq<string>)
    requires j != "" && j[0] == '/'
    requires Resolve(Split(j), false) == segs && JoinSegs(segs) != ""
    ensures Normalize(j) == "/" + JoinSegs(segs) + (if j[|j| - 1] == '/' then "/" else "")
  {
  }

  /** A path with no `..` segment, joined onto an absolute directory, normalises to a
      path that starts with the directory. This covers absolute paths as well:
      `path.join` appends them rather than replacing the directory. */
  lemma {:induction false} NoDotDotStaysUnder(names: seq<string>, p: string)
    requires |names| >= 1 && AllNames(names) && p != ""
    requires NoDotDot(Split(p))
    ensures StartsWith(Normalize(Join(Dir(names), p)), Normalize(Dir(names)))
  {
    var d := Dir(names);
    var j := d + "/" + p;
    var f := Filter(Split(p));
    var segs := names + f;
    assert Resolve(Split(j), false) == segs by {
      JoinedSegments(names, p);
      ResolveAppendNoDotDot([""] + names, Split(p), false);
      ResolveNames(names);
    }
    var body := JoinSegs(segs);
    assert body != "" && body[..|JoinSegs(names)|] == JoinSegs(names) by {
      JoinSegsLast(names);
      if f == [] {
        assert segs == names;
      } else {
        JoinSegsAppend(names, f);
      }
    }
    var n := "/" + body + (if j[|j| - 1] == '/' then "/" else "");
    assert Normalize(j) == n by {
      NormalizeAbsolute(j, segs);
    }
    assert Join(d, p) == Normalize(j) by {
      JoinDir(names, p);
    }
    assert Normalize(d) == d by {
      NormalizeDir(names);
    }
    assert n == "/" + body + (n[1 + |body|..]);
    assert n[..|d|] == "/" + body[..|JoinSegs(names)|];
    assert StartsWith(n, d);
    NormalizeIdempotentAbsolute(j);
  }

  /** The segment-aware containment test: `path` is `dir` itself or lies below `dir/`. */
  predicate Within(path: string, dir: string) {
    path == dir || StartsWith(path, if dir != "" && dir[|dir| - 1] == '/' then dir else dir + "/")
  }

  /** The segments a request `p` against the directory resolves to. */
  function RequestSegments(names: seq<string>, p: string): seq<string> {
    Resolve(Split(Dir(names) + "/" + p), false)
  }

  /** The absolute path made of `segs`, with a trailing slash if asked for. */
  function AbsolutePath(segs: seq<string>, trailing: bool): string {
    if segs == [] then "/" else Dir(segs) + (if trailing then "/" else "")
  }

  lemma {:induction false} NormalizedRequest(names: seq<string>, p: string)
    requires |names| >= 1 && AllNames(names) && p != ""
    ensures AllNames(RequestSegments(names, p))
    ensures Normalize(Join(Dir(names), p)) == AbsolutePath(RequestSegments(names, p), p[|p| - 1] == '/')
  {
    var j := Dir(names) + "/" + p;
    var segs := RequestSegments(names, p);
    ResolveAbsoluteNames(Split(j));
    JoinDir(names, p);
    NormalizeIdempotentAbsolute(j);
    assert j[|j| - 1] == p[|p| - 1];
    if segs != [] {
      JoinSegsLast(segs);
      NormalizeAbsolute(j, segs);
    }
  }

  lemma SplitDirTrail(segs: seq<string>, trailing: bool)
    requires |segs| >= 1 && AllNames(segs)
    ensures Split(Dir(segs) + (if trailing then "/" else "")) == [""] + segs + (if trailing then [""] else [])
  {
    DirSplit(segs);
    if trailing {
      assert Dir(segs) + "/" == Dir(segs) + "/" + "";
      SplitAround(Dir(segs), "");
      assert Split("") == [""];
    } else {
      assert Dir(segs) + "" == Dir(segs);
    }
  }

  /** The file-system root is never within an absolute directory of one or more names. */
  lemma RootNotWithin(names: seq<string>)
    requires |names| >= 1 && AllNames(names)
    ensures !Within("/", Dir(names))
  {
    assert |Dir(names)| >= 2;
  }

  lemma NamesNoTrailingEmpty(names: seq<string>, segs: seq<string>, tail: seq<string>)
    requires |names| >= 1 && AllNames(names) && (tail == [] || tail == [""])
    requires segs + tail == names
    ensures tail == [] && segs == names
  {
    assert IsName(names[|names| - 1]);
  }

  lemma PrefixOfNames(names: seq<string>, segs: seq<string>, tail: seq<string>, more: seq<string>)
    requires AllNames(names) && (tail == [] || tail == [""]) && |more| >= 1
    requires segs + tail == names + more
    ensures |names| <= |segs| && segs[..|names|] == names
  {
    var k := |names|;
    assert |segs| + |tail| == k + |more|;
    assert |segs| >= k;
    assert (segs + tail)[..k] == segs[..k];
    assert (names + more)[..k] == names;
  }

  lemma {:induction false} WithinImpliesPrefix(names: seq<string>, segs: seq<string>, trailing: bool)
    requires |names| >= 1 && AllNames(names) && AllNames(segs)
    requires Within(AbsolutePath(segs, trailing), Dir(names))
    ensures |names| <= |segs| && segs[..|names|] == names
  {
    var d := Dir(names);
    var n := AbsolutePath(segs, trailing);
    RootNotWithin(names);
    assert segs != [];
    JoinSegsLast(names);
    DirSplit(names);
    assert d[|d| - 1] != '/';
    var tail: seq<string> := if trailing then [""] else [];
    SplitDirTrail(segs, trailing);
    assert Split(n) == [""] + segs + tail;
    if n == d {
      assert segs + tail == names by {
        assert ([""] + segs + tail)[1..] == segs + tail;
        assert ([""] + names)[1..] == names;
      }
      NamesNoTrailingEmpty(names, segs, tail);
    } else {
      var dslash := d + "/";
      assert StartsWith(n, dslash);
      var rest := n[|dslash|..];
      assert n == d + "/" + rest;
      SplitAround(d, rest);
      assert segs + tail == names + Split(rest) by {
        assert ([""] + segs + tail)[1..] == segs + tail;
        assert ([""] + names + Split(rest))[1..] == names + Split(rest);
      }
      PrefixOfNames(names, segs, tail, Split(rest));
    }
  }

  lemma {:induction false} PrefixImpliesWithin(names: seq<string>, segs: seq<string>, trailing: bool)
    requires |names| >= 1 && AllNames(names) && AllNames(segs)
    requires |names| <= |segs| && segs[..|names|] == names
    ensures Within(AbsolutePath(segs, trailing), Dir(names))
  {
    var d := Dir(names);
    var n := AbsolutePath(segs, trailing);
    var k := |names|;
    JoinSegsLast(names);
    assert d[|d| - 1] != '/';
    var dslash := d + "/";
    var t: string := if trailing then "/" else "";
    assert n == Dir(segs) + t;
    if |segs| == k {
      assert segs == names;
      if t == "" {
        assert n == d;
      } else {
        assert n == dslash;
      }
    } else {
      assert segs == names + segs[k..];
      JoinSegsAppend(names, segs[k..]);
      assert n == dslash + JoinSegs(segs[k..]) + t;
      assert n[..|dslash|] == dslash;
    }
  }

  /** The segment-aware test admits a request exactly when the names of the
      directory are a prefix of the segments the request resolves to. */
  lemma WithinIffSegmentPrefix(names: seq<string>, p: string)
    requires |names| >= 1 && AllNames(names) && p != ""
    ensures var segs := RequestSegments(names, p);
            Within(Normalize(Join(Dir(names), p)), Normalize(Dir(names))) <==>
              (|names| <= |segs| && segs[..|names|] == names)
  {
    var segs := RequestSegments(names, p);
    var trailing := p[|p| - 1] == '/';
    NormalizedRequest(names, p);
    NormalizeDir(names);
    if Within(AbsolutePath(segs, trailing), Dir(names)) {
      WithinImpliesPrefix(names, segs, trailing);
    }
    if |names| <= |segs| && segs[..|names|] == names {
      PrefixImpliesWithin(names, segs, trailing);
    }
  }

  /** Without `..`, the request's segments are the directory's names and then the
      non-empty, non-`.` segments of `p`. */
  lemma NoDotDotSegments(names: seq<string>, p: string)
    requires |names| >= 1 && AllNames(names)
    requires NoDotDot(Split(p))
    ensures RequestSegments(names, p) == names + Filter(Split(p))
    ensures |names| <= |RequestSegments(names, p)| && RequestSegments(names, p)[..|names|] == names
  {
    JoinedSegments(names, p);
    ResolveAppendNoDotDot([""] + names, Split(p), false);
    ResolveNames(names);
  }
}
