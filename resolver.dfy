/**
 * The resolver that `createResolve` in src/gatsby-node.ts builds for a
 * field extension: it reads a relative path (or a list of them) off a
 * source record, joins it to the extension's base directory and looks up
 * the File nodes at those absolute paths. The directory-existence check
 * (`fs.existsSync`) and the host's node query (`runQuery`) are parameters.
 */
module Resolver {
  import opened Wrappers
  import opened JsValue
  import opened Paths

  /** A File node of the host's data graph, as far as the resolver reads it. */
  datatype FileNode = FileNode(id: string, absolutePath: string)

  /**
   * The arguments `createResolve` is built with (the reporter aside):
   * `dir` is the bound directory of a named extension (absent for the
   * generic one), `options` the value of the extension's `path` argument
   * (`None` when the extension got no options object at all).
   */
  datatype ResolveArgs = ResolveArgs(
    dir: Option<string>,
    options: Option<Value>,
    rootDir: string,
    verbose: bool)

  /**
   * What the resolver throws: the base directory is missing on disk (the
   * plugin's own error, naming the base path), a path segment is not a
   * string (`path.posix.join` rejects it), or the query returned `null`
   * while verbose logging reads its length.
   */
  datatype ResolveError =
    | BasePathMissing(basePath: string)
    | PathNotString(segment: Value)
    | NullQueryResult

  /** What the resolver returns: `null`, one node, or one slot per candidate path. */
  datatype Resolved =
    | NullResult
    | Single(node: FileNode)
    | Ordered(slots: seq<Option<FileNode>>)

  datatype Outcome = Returned(value: Resolved) | Threw(error: ResolveError)

  /** The text of the error the plugin throws itself, for a missing base directory. */
  function MissingMessage(pluginName: string, basePath: string): (r: string)
    ensures |r| == |pluginName| + 2 + |basePath| + 14
    ensures r[..|pluginName| + 2] == pluginName + ": "
    ensures r[|pluginName| + 2..|pluginName| + 2 + |basePath|] == basePath
    ensures r[|r| - 14..] == " doesn't exist"
  {
    var head := pluginName + ": " + basePath;
    var r := head + " doesn't exist";
    assert r[..|head|] == head && head[..|pluginName| + 2] == pluginName + ": ";
    assert head[|pluginName| + 2..] == basePath;
    r
  }

  /** The outcome of one resolution and the `absolutePath` filter it queried with, if it queried. */
  datatype Response = Response(outcome: Outcome, query: Option<seq<string>>)

  /** `src[fieldName]`: a missing property reads as `undefined`. */
  function FieldValue(src: map<string, Value>, fieldName: string): Value {
    if fieldName in src then src[fieldName] else Undefined
  }

  /** `isArray ? srcPath : [srcPath]`. */
  function PartialPaths(v: Value): seq<Value> {
    if v.Arr? then v.elems else [v]
  }

  /** The base path: the bound directory when it is a non-empty string, else a string `path` option. */
  function BasePath(dir: Option<string>, options: Option<Value>): Option<string> {
    if dir.Some? && dir.value != [] then Some(dir.value)
    else if options.Some? && options.value.Str? then Some(options.value.s)
    else None
  }

  /**
   * A bound directory wins whenever it is truthy; otherwise the `path`
   * option is used, and only when it is a string; nothing else yields a
   * base path.
   */
  lemma BasePathChoice(dir: Option<string>, options: Option<Value>, b: string)
    ensures BasePath(dir, options) == Some(b) <==>
      (dir == Some(b) && b != []) || ((dir == None || dir == Some([])) && options == Some(Str(b)))
    ensures BasePath(dir, options) == None <==>
      (dir == None || dir == Some([])) && (options == None || !options.value.Str?)
  {
  }

  /**
   * `partialPaths.map(p => path.posix.join(baseDir, p))`; `join` throws on
   * the first segment that is not a string.
   */
  function FilePaths(baseDir: string, partials: seq<Value>): (r: Result<seq<string>, ResolveError>)
    ensures r.Ok? <==> forall i :: 0 <= i < |partials| ==> partials[i].Str?
    ensures r.Ok? ==> (|r.value| == |partials|
      && forall i :: 0 <= i < |partials| ==> r.value[i] == Join(baseDir, partials[i].s))
    ensures r.Err? ==> exists k :: (0 <= k < |partials| && r.error == PathNotString(partials[k])
      && !partials[k].Str? && forall i :: 0 <= i < k ==> partials[i].Str?)
    decreases |partials|
  {
    if partials == [] then Ok([])
    else if !partials[0].Str? then Err(PathNotString(partials[0]))
    else
      match FilePaths(baseDir, partials[1..])
      case Ok(rest) => Ok([Join(baseDir, partials[0].s)] + rest)
      case Err(e) => Err(e)
  }

  /**
   * `nodes.find(node => node.absolutePath === p)`: the first node at path `p`.
   */
  function FindByPath(nodes: seq<FileNode>, p: string): (r: Option<FileNode>)
    ensures r.Some? <==> exists k :: 0 <= k < |nodes| && nodes[k].absolutePath == p
    ensures r.Some? ==> exists k :: (0 <= k < |nodes| && nodes[k] == r.value
      && r.value.absolutePath == p && forall j :: 0 <= j < k ==> nodes[j].absolutePath != p)
    decreases |nodes|
  {
    if nodes == [] then None
    else if nodes[0].absolutePath == p then Some(nodes[0])
    else
      var r := FindByPath(nodes[1..], p);
      assert forall k :: 0 < k < |nodes| ==> nodes[k] == nodes[1..][k - 1];
      r
  }

  /**
   * `filePaths.map(fp => nodes.find(...))`: one slot per candidate path, in
   * the candidates' order, holding the first node at that path.
   */
  function OrderByPaths(filePaths: seq<string>, nodes: seq<FileNode>): (r: seq<Option<FileNode>>)
    ensures |r| == |filePaths|
    ensures forall i :: 0 <= i < |filePaths| ==>
      (r[i].Some? <==> exists k :: 0 <= k < |nodes| && nodes[k].absolutePath == filePaths[i])
    ensures forall i :: 0 <= i < |filePaths| && r[i].Some? ==>
      exists k :: (0 <= k < |nodes| && nodes[k] == r[i].value && r[i].value.absolutePath == filePaths[i]
        && forall j :: 0 <= j < k ==> nodes[j].absolutePath != filePaths[i])
  {
    seq(|filePaths|, i requires 0 <= i < |filePaths| => FindByPath(nodes, filePaths[i]))
  }

  /** The steps of a resolution up to the query. */
  datatype Plan =
    | Finished(outcome: Outcome)
    | Query(filePaths: seq<string>, isArray: bool)

  /**
   * Everything the resolver does before it queries: the falsy-field check,
   * the choice of base path, the existence check of the base directory and
   * the joining of the candidate paths.
   */
  function Prepare(args: ResolveArgs, src: map<string, Value>, fieldName: string, dirExists: string -> bool): Plan {
    var srcPath := FieldValue(src, fieldName);
    if !Truthy(srcPath) then Finished(Returned(NullResult))
    else
      var isArray := srcPath.Arr?;
      match BasePath(args.dir, args.options)
      case None => Finished(Returned(NullResult))
      case Some(basePath) =>
        var baseDir := Join(args.rootDir, basePath);
        if !dirExists(baseDir) then Finished(Threw(BasePathMissing(basePath)))
        else
          match FilePaths(baseDir, PartialPaths(srcPath))
          case Err(e) => Finished(Threw(e))
          case Ok(filePaths) => Query(filePaths, isArray)
  }

  /** What the resolver makes of the query's answer `fileNodes` (`None` for `null`). */
  function Shape(verbose: bool, isArray: bool, filePaths: seq<string>, fileNodes: Option<seq<FileNode>>): Outcome {
    match fileNodes
    case None => if verbose then Threw(NullQueryResult) else Returned(NullResult)
    case Some(nodes) =>
      if |nodes| == 1 && !isArray then Returned(Single(nodes[0]))
      else Returned(Ordered(OrderByPaths(filePaths, nodes)))
  }

  /** One call of the resolver that `createResolve(args)` returns. */
  function Resolve(
    args: ResolveArgs, src: map<string, Value>, fieldName: string,
    dirExists: string -> bool, runQuery: seq<string> -> Option<seq<FileNode>>): Response
  {
    match Prepare(args, src, fieldName, dirExists)
    case Finished(outcome) => Response(outcome, None)
    case Query(filePaths, isArray) =>
      Response(Shape(args.verbose, isArray, filePaths, runQuery(filePaths)), Some(filePaths))
  }

  // ---------------------------------------------------------------------
  // Properties
  // ---------------------------------------------------------------------

  /** A falsy field value resolves to `null` before any query. */
  lemma ResolveFalsyField(
    args: ResolveArgs, src: map<string, Value>, fieldName: string,
    dirExists: string -> bool, runQuery: seq<string> -> Option<seq<FileNode>>)
    requires !Truthy(FieldValue(src, fieldName))
    ensures Resolve(args, src, fieldName, dirExists, runQuery) == Response(Returned(NullResult), None)
  {
  }

  /** Without a usable base path the resolver returns `null` and does not query. */
  lemma ResolveNoBasePath(
    args: ResolveArgs, src: map<string, Value>, fieldName: string,
    dirExists: string -> bool, runQuery: seq<string> -> Option<seq<FileNode>>)
    requires (args.dir == None || args.dir == Some([])) && (args.options == None || !args.options.value.Str?)
    ensures Resolve(args, src, fieldName, dirExists, runQuery) == Response(Returned(NullResult), None)
  {
    BasePathChoice(args.dir, args.options, []);
  }

  /** A base directory that does not exist throws, naming the base path, and nothing is queried. */
  lemma ResolveMissingBaseDir(
    args: ResolveArgs, src: map<string, Value>, fieldName: string,
    dirExists: string -> bool, runQuery: seq<string> -> Option<seq<FileNode>>, basePath: string)
    requires Truthy(FieldValue(src, fieldName))
    requires BasePath(args.dir, args.options) == Some(basePath)
    requires !dirExists(Join(args.rootDir, basePath))
    ensures Resolve(args, src, fieldName, dirExists, runQuery) == Response(Threw(BasePathMissing(basePath)), None)
  {
  }

  /**
   * The resolver queries exactly when the field is truthy, a base path is
   * found, its directory exists and every segment is a string; the query
   * then asks for one path per segment, in order, each the base directory
   * joined with that segment.
   */
  lemma ResolveQuery(
    args: ResolveArgs, src: map<string, Value>, fieldName: string,
    dirExists: string -> bool, runQuery: seq<string> -> Option<seq<FileNode>>)
    ensures Resolve(args, src, fieldName, dirExists, runQuery).query.Some? <==>
      Truthy(FieldValue(src, fieldName))
      && BasePath(args.dir, args.options).Some?
      && dirExists(Join(args.rootDir, BasePath(args.dir, args.options).value))
      && forall i :: 0 <= i < |PartialPaths(FieldValue(src, fieldName))| ==> PartialPaths(FieldValue(src, fieldName))[i].Str?
    ensures Resolve(args, src, fieldName, dirExists, runQuery).query.Some? ==>
      var partials := PartialPaths(FieldValue(src, fieldName));
      var baseDir := Join(args.rootDir, BasePath(args.dir, args.options).value);
      var filePaths := Resolve(args, src, fieldName, dirExists, runQuery).query.value;
      |filePaths| == |partials| && forall i :: 0 <= i < |partials| ==> filePaths[i] == Join(baseDir, partials[i].s)
  {
  }

  /**
   * A segment that is not a string makes `path.posix.join` throw once the
   * base directory is found to exist; the first such segment is the one
   * reported, and nothing is queried.
   */
  lemma ResolveNonStringSegment(
    args: ResolveArgs, src: map<string, Value>, fieldName: string,
    dirExists: string -> bool, runQuery: seq<string> -> Option<seq<FileNode>>, basePath: string, k: nat)
    requires Truthy(FieldValue(src, fieldName))
    requires BasePath(args.dir, args.options) == Some(basePath)
    requires dirExists(Join(args.rootDir, basePath))
    requires k < |PartialPaths(FieldValue(src, fieldName))|
    requires !PartialPaths(FieldValue(src, fieldName))[k].Str?
    requires forall i :: 0 <= i < k ==> PartialPaths(FieldValue(src, fieldName))[i].Str?
    ensures Resolve(args, src, fieldName, dirExists, runQuery)
      == Response(Threw(PathNotString(PartialPaths(FieldValue(src, fieldName))[k])), None)
  {
  }

  /** A non-list field whose query yields exactly one node returns that node, not a list. */
  lemma ResolveSingle(
    args: ResolveArgs, src: map<string, Value>, fieldName: string,
    dirExists: string -> bool, runQuery: seq<string> -> Option<seq<FileNode>>, fps: seq<string>, n: FileNode)
    requires Resolve(args, src, fieldName, dirExists, runQuery).query == Some(fps)
    requires !FieldValue(src, fieldName).Arr?
    requires runQuery(fps) == Some([n])
    ensures Resolve(args, src, fieldName, dirExists, runQuery).outcome == Returned(Single(n))
  {
  }

  /**
   * In every other answered case the resolver returns a list with one slot
   * per candidate path: the slot holds the first returned node at that
   * path when the query returned one, and is empty otherwise.
   */
  lemma ResolveOrdered(
    args: ResolveArgs, src: map<string, Value>, fieldName: string,
    dirExists: string -> bool, runQuery: seq<string> -> Option<seq<FileNode>>,
    filePaths: seq<string>, nodes: seq<FileNode>)
    requires Resolve(args, src, fieldName, dirExists, runQuery).query == Some(filePaths)
    requires runQuery(filePaths) == Some(nodes)
    requires FieldValue(src, fieldName).Arr? || |nodes| != 1
    ensures var outcome := Resolve(args, src, fieldName, dirExists, runQuery).outcome;
      outcome.Returned? && outcome.value.Ordered? && outcome.value.slots == OrderByPaths(filePaths, nodes)
      && |outcome.value.slots| == |filePaths|
      && forall i :: 0 <= i < |filePaths| ==>
        (outcome.value.slots[i].Some? <==> exists n :: n in nodes && n.absolutePath == filePaths[i])
        && (outcome.value.slots[i].Some? ==>
              exists k :: (0 <= k < |nodes| && nodes[k] == outcome.value.slots[i].value
                && nodes[k].absolutePath == filePaths[i]
                && forall j :: 0 <= j < k ==> nodes[j].absolutePath != filePaths[i]))
  {
    var slots := OrderByPaths(filePaths, nodes);
    forall i | 0 <= i < |filePaths|
      ensures (slots[i].Some? <==> exists n :: n in nodes && n.absolutePath == filePaths[i])
      ensures slots[i].Some? ==> slots[i].value in nodes && slots[i].value.absolutePath == filePaths[i]
    {
      if exists n :: n in nodes && n.absolutePath == filePaths[i] {
        var n :| n in nodes && n.absolutePath == filePaths[i];
        var k :| 0 <= k < |nodes| && nodes[k] == n;
      }
    }
  }

  /** A `null` answer to the query gives `null`, or a thrown error when verbose logging reads it. */
  lemma ResolveNullAnswer(
    args: ResolveArgs, src: map<string, Value>, fieldName: string,
    dirExists: string -> bool, runQuery: seq<string> -> Option<seq<FileNode>>, fps: seq<string>)
    requires Resolve(args, src, fieldName, dirExists, runQuery).query == Some(fps)
    requires runQuery(fps) == None
    ensures Resolve(args, src, fieldName, dirExists, runQuery).outcome ==
      if args.verbose then Threw(NullQueryResult) else Returned(NullResult)
  {
  }

  /**
   * A non-list field whose query finds nothing does not resolve to `null`:
   * it returns a one-slot list whose slot is empty.
   */
  lemma ResolveSingleNoMatch(
    args: ResolveArgs, src: map<string, Value>, fieldName: string,
    dirExists: string -> bool, runQuery: seq<string> -> Option<seq<FileNode>>, fps: seq<string>)
    requires Resolve(args, src, fieldName, dirExists, runQuery).query == Some(fps)
    requires !FieldValue(src, fieldName).Arr?
    requires runQuery(fps) == Some([])
    ensures Resolve(args, src, fieldName, dirExists, runQuery).outcome == Returned(Ordered([None]))
  {
    assert |fps| == 1;
    assert FindByPath([], fps[0]) == None;
    assert OrderByPaths(fps, []) == [None];
  }

  /** No two distinct nodes share an absolute path. */
  predicate PathKeyed(nodes: seq<FileNode>) {
    forall a, b :: a in nodes && b in nodes && a.absolutePath == b.absolutePath ==> a == b
  }

  /** When paths identify nodes, the node found at a path is the one node there. */
  lemma FindByPathKeyed(nodes: seq<FileNode>, p: string, n: FileNode)
    requires PathKeyed(nodes)
    ensures FindByPath(nodes, p) == Some(n) <==> n in nodes && n.absolutePath == p
  {
    if n in nodes && n.absolutePath == p {
      var k :| 0 <= k < |nodes| && nodes[k] == n;
    }
  }

  /**
   * When paths identify nodes, the ordered list does not depend on the
   * order in which the query returns them.
   */
  lemma OrderByPathsPermutation(filePaths: seq<string>, nodes1: seq<FileNode>, nodes2: seq<FileNode>)
    requires PathKeyed(nodes1)
    requires multiset(nodes1) == multiset(nodes2)
    ensures OrderByPaths(filePaths, nodes1) == OrderByPaths(filePaths, nodes2)
  {
    assert forall x :: x in nodes1 <==> x in nodes2 by {
      forall x ensures x in nodes1 <==> x in nodes2 {
        assert x in nodes1 <==> x in multiset(nodes1);
        assert x in nodes2 <==> x in multiset(nodes2);
      }
    }
    assert PathKeyed(nodes2);
    forall i | 0 <= i < |filePaths|
      ensures FindByPath(nodes1, filePaths[i]) == FindByPath(nodes2, filePaths[i])
    {
      var p := filePaths[i];
      match FindByPath(nodes1, p)
      case Some(n) =>
        FindByPathKeyed(nodes1, p, n);
        FindByPathKeyed(nodes2, p, n);
      case None =>
        if FindByPath(nodes2, p).Some? {
          var n := FindByPath(nodes2, p).value;
          FindByPathKeyed(nodes2, p, n);
          FindByPathKeyed(nodes1, p, n);
        }
    }
  }

  /**
   * The resolver's outcome does not depend on the order of the query's
   * answer: two queries that return the same nodes, in any order, with
   * paths identifying nodes, give the same response.
   */
  lemma ResolveOrderIndependent(
    args: ResolveArgs, src: map<string, Value>, fieldName: string, dirExists: string -> bool,
    runQuery1: seq<string> -> Option<seq<FileNode>>, runQuery2: seq<string> -> Option<seq<FileNode>>)
    requires forall fps :: runQuery1(fps).Some? <==> runQuery2(fps).Some?
    requires forall fps :: runQuery1(fps).Some? ==>
      PathKeyed(runQuery1(fps).value) && multiset(runQuery1(fps).value) == multiset(runQuery2(fps).value)
    ensures Resolve(args, src, fieldName, dirExists, runQuery1) == Resolve(args, src, fieldName, dirExists, runQuery2)
  {
    match Prepare(args, src, fieldName, dirExists)
    case Finished(_) =>
    case Query(filePaths, isArray) =>
      if runQuery1(filePaths).Some? {
        var nodes1, nodes2 := runQuery1(filePaths).value, runQuery2(filePaths).value;
        assert |nodes1| == |multiset(nodes1)| == |multiset(nodes2)| == |nodes2|;
        if |nodes1| == 1 && !isArray {
          assert nodes1[0] in multiset(nodes2);
        } else {
          OrderByPathsPermutation(filePaths, nodes1, nodes2);
        }
      }
  }

  /**
   * Nothing the query returns is lost: when paths identify nodes, every
   * returned node at a candidate path fills that candidate's slot.
   */
  lemma OrderByPathsComplete(filePaths: seq<string>, nodes: seq<FileNode>, n: FileNode, i: nat)
    requires PathKeyed(nodes)
    requires n in nodes && i < |filePaths| && n.absolutePath == filePaths[i]
    ensures OrderByPaths(filePaths, nodes)[i] == Some(n)
  {
    FindByPathKeyed(nodes, filePaths[i], n);
  }

  /** The candidate paths of a list field `["a.png", "b.png"]` under root `/root` and bound directory `assets`. */
  lemma AssetsPaths()
    ensures Join("/root", "assets") == "/root/assets"
    ensures Join("/root/assets", "a.png") == "/root/assets/a.png"
    ensures Join("/root/assets", "b.png") == "/root/assets/b.png"
    ensures "/root/assets/a.png" != "/root/assets/b.png"
  {
    assert "/root/assets/a.png"[13] != "/root/assets/b.png"[13];
  }

  /**
   * A list field `["a.png", "b.png"]` under root `/root` with bound
   * directory `assets` resolves to the two nodes in field order, even when
   * the query returns them reversed.
   */
  lemma TwoPathsInFieldOrder(
    src: map<string, Value>, fieldName: string, dirExists: string -> bool,
    runQuery: seq<string> -> Option<seq<FileNode>>, a: FileNode, b: FileNode)
    requires FieldValue(src, fieldName) == Arr([Str("a.png"), Str("b.png")])
    requires dirExists("/root/assets")
    requires a.absolutePath == "/root/assets/a.png" && b.absolutePath == "/root/assets/b.png"
    requires runQuery(["/root/assets/a.png", "/root/assets/b.png"]) == Some([b, a])
    ensures Resolve(ResolveArgs(Some("assets"), None, "/root", false), src, fieldName, dirExists, runQuery)
      == Response(Returned(Ordered([Some(a), Some(b)])), Some(["/root/assets/a.png", "/root/assets/b.png"]))
  {
    var args := ResolveArgs(Some("assets"), None, "/root", false);
    var pa, pb := "/root/assets/a.png", "/root/assets/b.png";
    AssetsPaths();
    var fps := [pa, pb];
    var partials := [Str("a.png"), Str("b.png")];
    var joined := FilePaths("/root/assets", partials);
    assert partials[0].Str? && partials[1].Str?;
    assert joined.Ok? && joined.value[0] == pa && joined.value[1] == pb;
    assert joined.value == fps;
    assert Prepare(args, src, fieldName, dirExists) == Query(fps, true);
    assert FindByPath([b, a], pa) == Some(a);
    assert FindByPath([b, a], pb) == Some(b);
    assert OrderByPaths(fps, [b, a]) == [Some(a), Some(b)];
  }
}
