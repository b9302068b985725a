/** The development endpoint `GET /api/component-code?path=<p>` that serves the text
    of a source file below the working directory: a ladder of guards answering
    400, 403, 404, 200 or 500. The file system is a map from normalised absolute
    paths to what `fs.existsSync` and `fs.readFileSync` find there. */
module ComponentCodeRoute {
  import opened Wrappers
  import PosixPath
  import FormUrlEncoding

  /** An existing path: a file whose text can be read, or something `readFileSync`
      throws on (a directory, a file without read permission). */
  datatype Entry = File(contents: string) | Unreadable

  type FileSystem = map<string, Entry>

  datatype Body = CodeBody(code: string) | ErrorBody(error: string)

  datatype Response = Response(status: int, body: Body)

  const MissingPathMessage: string := "Component path is required"
  const AccessDeniedMessage: string := "Access denied"
  const NotFoundMessage: string := "Component file not found"
  const ReadFailedMessage: string := "Failed to read component code"

  /** The path the handler checks and reads: the parameter joined onto the working
      directory, normalised once more. */
  function RequestedPath(cwd: string, p: string): string {
    PosixPath.Normalize(PosixPath.Join(cwd, p))
  }

  /** The containment test as written: a character prefix of the normalised
      working directory. */
  predicate PassesPrefixCheck(cwd: string, p: string) {
    PosixPath.StartsWith(RequestedPath(cwd, p), PosixPath.Normalize(cwd))
  }

  /** The handler, given what `searchParams.get('path')` returned. */
  function Respond(param: Option<string>, cwd: string, fs: FileSystem): (r: Response)
    ensures r.status == 200 || r.status == 400 || r.status == 403 || r.status == 404 || r.status == 500
    ensures r.body.CodeBody? <==> r.status == 200
  {
    if param.None? || param.value == "" then Response(400, ErrorBody(MissingPathMessage))
    else
      var requested := RequestedPath(cwd, param.value);
      if !PassesPrefixCheck(cwd, param.value) then Response(403, ErrorBody(AccessDeniedMessage))
      else if requested !in fs then Response(404, ErrorBody(NotFoundMessage))
      else match fs[requested]
        case File(code) => Response(200, CodeBody(code))
        case Unreadable => Response(500, ErrorBody(ReadFailedMessage))
  }

  // ---------------------------------------------------------------------------
  // The guard ladder

  /** 400 exactly when the parameter is missing or empty; it comes first, before any
      path work, so it holds whatever the working directory and the files are. */
  lemma BadRequestIffMissing(param: Option<string>, cwd: string, fs: FileSystem)
    ensures Respond(param, cwd, fs).status == 400 <==> (param.None? || param.value == "")
    ensures Respond(param, cwd, fs).status == 400 ==>
            Respond(param, cwd, fs).body == ErrorBody(MissingPathMessage)
  {
  }

  /** 403 exactly when a non-empty path fails the prefix test; the answer is then the
      same whatever the file system holds, so no file was looked at. */
  lemma ForbiddenReadsNothing(param: Option<string>, cwd: string, fs: FileSystem, other: FileSystem)
    ensures Respond(param, cwd, fs).status == 403 <==>
            (param.Some? && param.value != "" && !PassesPrefixCheck(cwd, param.value))
    ensures Respond(param, cwd, fs).status == 403 ==>
            Respond(param, cwd, other) == Respond(param, cwd, fs) == Response(403, ErrorBody(AccessDeniedMessage))
  {
  }

  /** Past the first two guards: 404 when nothing exists at the path, the file's exact
      text when it can be read, 500 when reading throws. */
  lemma ContainedOutcome(p: string, cwd: string, fs: FileSystem)
    requires p != "" && PassesPrefixCheck(cwd, p)
    ensures var path := RequestedPath(cwd, p);
            var r := Respond(Some(p), cwd, fs);
            && (path !in fs <==> r == Response(404, ErrorBody(NotFoundMessage)))
            && (forall code :: path in fs && fs[path] == File(code) <==> r == Response(200, CodeBody(code)))
            && (path in fs && fs[path] == Unreadable <==> r == Response(500, ErrorBody(ReadFailedMessage)))
  {
  }

  /** The guards are ordered: a 403 needs a parameter, a 404 or 500 needs one that also
      passes the containment test. */
  lemma GuardOrder(param: Option<string>, cwd: string, fs: FileSystem)
    ensures var r := Respond(param, cwd, fs);
            (r.status == 403 || r.status == 404 || r.status == 500 || r.status == 200) ==>
              param.Some? && param.value != ""
    ensures var r := Respond(param, cwd, fs);
            (r.status == 404 || r.status == 500 || r.status == 200) ==>
              PassesPrefixCheck(cwd, param.value) && (r.status == 404 <==> RequestedPath(cwd, param.value) !in fs)
  {
  }

  /** A path with no `..` segment is never refused, when the working directory is an
      absolute path of plain names. An absolute `p` is appended to the directory, not
      substituted for it, so it is no exception. */
  lemma NoDotDotNeverForbidden(names: seq<string>, p: string, fs: FileSystem)
    requires |names| >= 1 && PosixPath.AllNames(names) && p != ""
    requires PosixPath.NoDotDot(PosixPath.Split(p))
    ensures Respond(Some(p), PosixPath.Dir(names), fs).status != 403
  {
    PosixPath.NoDotDotStaysUnder(names, p);
  }

  // ---------------------------------------------------------------------------
  // The prefix test admits siblings of the working directory

  /** With the server in `/app`, the request `../app2/x` resolves to `/app2/x`, which
      starts with the characters `/app` and is served, though it lies outside `/app`. */
  lemma SiblingDirectoryServed()
    ensures Respond(Some("../app2/x"), "/app", map["/app2/x" := File("secret")]) ==
            Response(200, CodeBody("secret"))
  {
    SiblingResolves();
    assert PosixPath.StartsWith("/app2/x", "/app");
  }

  lemma SiblingSegments()
    ensures PosixPath.Split("../app2/x") == ["..", "app2", "x"]
  {
    var pSegs := ["..", "app2", "x"];
    assert PosixPath.JoinSegs(pSegs[2..]) == "x";
    assert PosixPath.JoinSegs(pSegs[1..]) == "app2/x";
    assert PosixPath.JoinSegs(pSegs) == "../app2/x";
    PosixPath.SplitJoin(pSegs);
  }

  lemma SiblingStack()
    ensures PosixPath.Resolve(["", "app", "..", "app2", "x"], false) == ["app2", "x"]
  {
    assert PosixPath.IsName("app") && PosixPath.IsName("app2") && PosixPath.IsName("x");
    UpAndAcross("app", "app2", "x");
  }

  /** From the root, into `a`, back up, then into `b` and `x`. */
  lemma UpAndAcross(a: string, b: string, x: string)
    requires PosixPath.IsName(a) && PosixPath.IsName(b) && PosixPath.IsName(x)
    ensures PosixPath.Resolve(["", a, "..", b, x], false) == [b, x]
  {
    var s1: seq<string> := [""];
    var s2 := s1 + [a];
    var s3 := s2 + [".."];
    var s4 := s3 + [b];
    var s5 := s4 + [x];
    ResolveSnoc([], "");
    assert [] + [""] == s1;
    ResolveSnoc(s1, a);
    ResolveSnoc(s2, "..");
    ResolveSnoc(s3, b);
    ResolveSnoc(s4, x);
    assert s5 == ["", a, "..", b, x];
  }

  lemma ResolveSnoc(segs: seq<string>, seg: string)
    ensures PosixPath.Resolve(segs + [seg], false) == PosixPath.Step(PosixPath.Resolve(segs, false), seg, false)
  {
    assert (segs + [seg])[..|segs|] == segs;
  }

  lemma SiblingRequestSegments()
    ensures PosixPath.RequestSegments(["app"], "../app2/x") == ["app2", "x"]
  {
    var names := ["app"];
    var p := "../app2/x";
    assert PosixPath.AllNames(names);
    SiblingSegments();
    PosixPath.JoinedSegments(names, p);
    assert [""] + names + PosixPath.Split(p) == ["", "app", "..", "app2", "x"];
    SiblingStack();
  }

  lemma SiblingResolves()
    ensures RequestedPath("/app", "../app2/x") == "/app2/x"
    ensures PosixPath.Normalize("/app") == "/app"
  {
    SiblingRequestedPath();
    AppNormal();
  }

  lemma SiblingRequestedPath()
    ensures RequestedPath("/app", "../app2/x") == "/app2/x"
  {
    var names := ["app"];
    var p := "../app2/x";
    assert PosixPath.AllNames(names);
    assert PosixPath.Dir(names) == "/app";
    SiblingRequestSegments();
    PosixPath.NormalizedRequest(names, p);
    assert p[|p| - 1] != '/';
    assert PosixPath.AbsolutePath(["app2", "x"], false) == "/app2/x" by {
      assert PosixPath.JoinSegs(["app2", "x"][1..]) == "x";
    }
  }

  lemma AppNormal()
    ensures PosixPath.Normalize("/app") == "/app"
  {
    var names := ["app"];
    assert PosixPath.AllNames(names);
    assert PosixPath.Dir(names) == "/app";
    PosixPath.NormalizeDir(names);
  }

  // ---------------------------------------------------------------------------
  // The corrected containment test

  /** The containment test the guard is meant to make: the requested path is the
      working directory itself or lies below `cwd/`. */
  predicate PassesContainment(cwd: string, p: string) {
    PosixPath.Within(RequestedPath(cwd, p), PosixPath.Normalize(cwd))
  }

  /** The handler with the segment-aware containment test; everything else unchanged. */
  function RespondContained(param: Option<string>, cwd: string, fs: FileSystem): (r: Response)
    ensures r.body.CodeBody? <==> r.status == 200
  {
    if param.None? || param.value == "" then Response(400, ErrorBody(MissingPathMessage))
    else
      var requested := RequestedPath(cwd, param.value);
      if !PassesContainment(cwd, param.value) then Response(403, ErrorBody(AccessDeniedMessage))
      else if requested !in fs then Response(404, ErrorBody(NotFoundMessage))
      else match fs[requested]
        case File(code) => Response(200, CodeBody(code))
        case Unreadable => Response(500, ErrorBody(ReadFailedMessage))
  }

  /** With the corrected test, every path the handler goes on to look up resolves to
      the working directory's own segments followed by more: nothing outside the
      directory is ever read. */
  lemma ContainedReadsOnlyInside(names: seq<string>, p: string, fs: FileSystem)
    requires |names| >= 1 && PosixPath.AllNames(names) && p != ""
    requires RespondContained(Some(p), PosixPath.Dir(names), fs).status != 403
    ensures var segs := PosixPath.RequestSegments(names, p);
            |names| <= |segs| && segs[..|names|] == names
  {
    PosixPath.WithinIffSegmentPrefix(names, p);
  }

  /** The corrected handler refuses the sibling directory that the prefix test lets through. */
  lemma ContainedRefusesSibling()
    ensures RespondContained(Some("../app2/x"), "/app", map["/app2/x" := File("secret")]) ==
            Response(403, ErrorBody(AccessDeniedMessage))
  {
    assert !PassesContainment("/app", "../app2/x") by {
      var names := ["app"];
      assert PosixPath.AllNames(names);
      assert PosixPath.Dir(names) == "/app";
      SiblingRequestSegments();
      PosixPath.WithinIffSegmentPrefix(names, "../app2/x");
      assert ["app2", "x"][..1] != names;
    }
  }

  /** For every path without `..`, the corrected handler answers as the original does. */
  lemma ContainedAgreesWithoutDotDot(names: seq<string>, p: string, fs: FileSystem)
    requires |names| >= 1 && PosixPath.AllNames(names) && p != ""
    requires PosixPath.NoDotDot(PosixPath.Split(p))
    ensures RespondContained(Some(p), PosixPath.Dir(names), fs) == Respond(Some(p), PosixPath.Dir(names), fs)
    ensures Respond(Some(p), PosixPath.Dir(names), fs).status != 403
  {
    PosixPath.NoDotDotStaysUnder(names, p);
    PosixPath.NoDotDotSegments(names, p);
    PosixPath.WithinIffSegmentPrefix(names, p);
  }

  /** The endpoint on the raw query string, with the corrected containment test. */
  function Get(query: seq<FormUrlEncoding.Byte>, cwd: string, fs: FileSystem): Response {
    RespondContained(FormUrlEncoding.GetParam(FormUrlEncoding.Parse(query), FormUrlEncoding.ParamName), cwd, fs)
  }

  /** The code view's request reaches the handler with its path intact. */
  lemma GetOfRequestQuery(componentPath: string, cwd: string, fs: FileSystem)
    ensures Get(FormUrlEncoding.RequestQuery(componentPath), cwd, fs) == RespondContained(Some(componentPath), cwd, fs)
  {
    FormUrlEncoding.QueryRoundTrip(componentPath);
  }
}
