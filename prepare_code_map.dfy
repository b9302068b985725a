/** The build script that reads a fixed list of component sources into a map from
    each listed path to the file's text, skipping files that are missing or that
    cannot be read. The file system is the same map the endpoint reads. */
module PrepareCodeMap {
  import PosixPath
  import ComponentCodeRoute

  type FileSystem = ComponentCodeRoute.FileSystem

  /** The sources the script bundles, relative to the working directory. */
  const ComponentPaths: seq<string> := [
    "src/components/travel-time-calculator/travel-time-calculator.tsx",
    "src/components/asset-counter-demo/asset-counter-demo.tsx",
    "src/components/text-reveal/text-reveal.tsx",
    "src/components/text-hover/text-hover.tsx",
    "src/components/dropdown/dropdown.tsx",
    "src/components/animated-button/animated-button.tsx",
    "src/components/asset-counter/asset-counter.tsx"
  ]

  /** The full path the script checks and reads for one listed path. */
  function FullPath(cwd: string, componentPath: string): string {
    PosixPath.Join(cwd, componentPath)
  }

  /** The listed path exists and reading it succeeds. */
  predicate Readable(cwd: string, componentPath: string, fs: FileSystem) {
    FullPath(cwd, componentPath) in fs && fs[FullPath(cwd, componentPath)].File?
  }

  /** The map the loop has built after handling `paths` in order. */
  function CodeMapOf(paths: seq<string>, cwd: string, fs: FileSystem): map<string, string>
    decreases |paths|
  {
    if paths == [] then map[]
    else
      var before := CodeMapOf(paths[..|paths| - 1], cwd, fs);
      var p := paths[|paths| - 1];
      if Readable(cwd, p, fs) then before[p := fs[FullPath(cwd, p)].contents] else before
  }

  /** How many listed paths are readable. */
  function ReadableCount(paths: seq<string>, cwd: string, fs: FileSystem): nat
    decreases |paths|
  {
    if paths == [] then 0
    else ReadableCount(paths[..|paths| - 1], cwd, fs) + (if Readable(cwd, paths[|paths| - 1], fs) then 1 else 0)
  }

  predicate Distinct(paths: seq<string>) {
    forall i, j :: 0 <= i < j < |paths| ==> paths[i] != paths[j]
  }

  /** The `forEach` loop: a missing or unreadable file is reported and skipped, and
      the loop goes on with the next path. */
  method BuildCodeMap(paths: seq<string>, cwd: string, fs: FileSystem) returns (codeMap: map<string, string>)
    ensures codeMap == CodeMapOf(paths, cwd, fs)
  {
    codeMap := map[];
    var i := 0;
    while i < |paths|
      invariant 0 <= i <= |paths|
      invariant codeMap == CodeMapOf(paths[..i], cwd, fs)
    {
      var componentPath := paths[i];
      var fullPath := FullPath(cwd, componentPath);
      if fullPath in fs {
        match fs[fullPath]
        case File(code) => codeMap := codeMap[componentPath := code];
        case Unreadable =>
      }
      assert paths[..i + 1][..i] == paths[..i];
      i := i + 1;
    }
    assert paths[..i] == paths;
  }

  /** A path is a key exactly when it is listed and readable, and its value is then
      that file's text. */
  lemma {:induction false} CodeMapContents(paths: seq<string>, cwd: string, fs: FileSystem, k: string)
    ensures k in CodeMapOf(paths, cwd, fs) <==> k in paths && Readable(cwd, k, fs)
    ensures k in CodeMapOf(paths, cwd, fs) ==> CodeMapOf(paths, cwd, fs)[k] == fs[FullPath(cwd, k)].contents
    decreases |paths|
  {
    if paths != [] {
      var init := paths[..|paths| - 1];
      CodeMapContents(init, cwd, fs, k);
      assert paths == init + [paths[|paths| - 1]];
      assert k in paths <==> k in init || k == paths[|paths| - 1];
    }
  }

  /** With distinct paths, the map has one entry per readable path. */
  lemma {:induction false} CodeMapSize(paths: seq<string>, cwd: string, fs: FileSystem)
    requires Distinct(paths)
    ensures |CodeMapOf(paths, cwd, fs)| == ReadableCount(paths, cwd, fs)
    decreases |paths|
  {
    if paths != [] {
      var init := paths[..|paths| - 1];
      var p := paths[|paths| - 1];
      assert Distinct(init);
      CodeMapSize(init, cwd, fs);
      assert p !in init by {
        forall i | 0 <= i < |init| ensures init[i] != p {
          assert init[i] == paths[i];
        }
      }
      CodeMapContents(init, cwd, fs, p);
      if Readable(cwd, p, fs) {
        var before := CodeMapOf(init, cwd, fs);
        assert p !in before;
        assert before[p := fs[FullPath(cwd, p)].contents].Keys == before.Keys + {p};
      }
    }
  }

  /** The script's own list has no duplicates, so its map has one entry per source
      that could be read. */
  lemma ComponentPathsMap(cwd: string, fs: FileSystem)
    ensures |CodeMapOf(ComponentPaths, cwd, fs)| == ReadableCount(ComponentPaths, cwd, fs)
    ensures forall k :: k in CodeMapOf(ComponentPaths, cwd, fs) ==> k in ComponentPaths
  {
    assert Distinct(ComponentPaths);
    CodeMapSize(ComponentPaths, cwd, fs);
    forall k | k in CodeMapOf(ComponentPaths, cwd, fs) ensures k in ComponentPaths {
      CodeMapContents(ComponentPaths, cwd, fs, k);
    }
  }
}
