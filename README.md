# gatsby-schema-field-absolute-path, modelled in Dafny

This Gatsby plugin lets content files refer to other files by relative path.
For each configured directory it registers a schema field extension, such as
`@fileByImagesPath`, plus the generic `@fileByAbsolutePath(path: ...)`. Each
one resolves a path string, or a list of them, to the matching `File` nodes.

The model covers the two pieces of logic in the plugin:

- **The option normaliser** (`createFieldExts`, `createName` and `toTitleCase`
  in `src/utils.ts`), in `utils.dfy`. It turns the `dirs` option into an
  ordered list of `(name, dir)` entries. `dirs` is any JavaScript value
  (`js_value.dfy`): a falsy value throws `NoDirs`, a string gives one entry,
  a list gives one entry per string element, an object gives one entry per
  string-valued property, and anything else gives nothing. The list branch of
  the source is a `map` whose callback updates a `Set` of seen names. It is
  modelled as the method `ProcessList`, a loop that carries that set. The
  method is proved equal to the recursive specification `ListExts`, and the
  lemmas about `ListExts` state what the source promises. `ListExts` and its
  lemmas take the name derivation as a parameter `derive`, so they hold for
  any way of naming a directory. `createFieldExts` uses `NameOf`, which is
  `createName`, or no name where `createName` throws.
- **The resolver** (`createResolve` in `src/gatsby-node.ts`), in
  `resolver.dfy`. It works in these steps:
  - a falsy field value gives `null`;
  - it picks the base path: the bound directory, else the `path` argument;
  - it checks that the base directory exists;
  - it joins each segment to the base directory;
  - it queries, and shapes the answer into `null`, one node, or one slot per
    candidate path.

  `fs.existsSync` is the parameter `dirExists`. The host's
  `context.nodeModel.runQuery` is the parameter `runQuery`, a function from
  the list of candidate paths to the answer (`None` stands for `null`).
  `Resolve` returns the outcome together with the query it made, if any. This
  makes "no query was made" a provable statement.

`paths.dfy` models the two functions of Node's `path.posix` that the plugin
calls. `ParseName` is `path.parse(p).name`: trailing `/` characters are
ignored, the last segment is taken, and a final extension is removed unless
its dot is the segment's first character or the segment is `..`. `Join` is
`path.join` without normalisation.

Behaviours of the code that the model keeps as written:

- `toTitleCase("")` reads a property of `undefined`. So a directory whose
  parsed name is empty (`"/"`, or `""` inside a list) makes
  `createFieldExts` throw a `TypeError`. This is `ConfigError.TypeError`.
- Only the first character is upper-cased. `images` and `Images` collide;
  `images` and `IMAGES` do not (`CreateNameCollision`).
- A bound directory `""` is falsy. An extension bound to it behaves like the
  generic one and reads the `path` argument.
- The query always filters with `in`, for a single path too.
- A non-list field whose query finds nothing returns a one-slot list `[undefined]`.
  It does not return `null` (`ResolveSingleNoMatch`).
- With `verbose` on, the resolver reads `fileNodes.length` before its
  `!fileNodes` check (src/gatsby-node.ts:77-87). A `null` answer therefore
  throws instead of returning `null` (`ResolveNullAnswer`).
- A segment that is not a string makes `path.posix.join` throw
  (`PathNotString`). This happens only after the base-directory checks
  (`ResolveNonStringSegment`).

## Model

| member | source | states |
|---|---|---|
| Paths.TrimTrailingSlashesSpec | src/utils.ts:13 | the trimmed path is a prefix that drops only trailing '/' and does not end in '/' |
| Paths.LastSegmentSpec | src/utils.ts:13 | the last segment is the longest '/'-free suffix of the path |
| Paths.LastDotSpec | src/utils.ts:13 | the dot found is a '.', and no '.' follows it |
| Paths.BaseName | src/utils.ts:13 | `path.parse(p).base`, defined as the last segment of `p` with trailing '/' ignored; what it gives is stated by TrimTrailingSlashesSpec, LastSegmentSpec and BaseNameEmpty |
| Paths.ParseName | src/utils.ts:13 | `path.parse(p).name`, defined from the base name and its last '.'; what it gives is stated by ParseNameSpec |
| Paths.BaseNameEmpty | src/utils.ts:13 | the base name is empty exactly when the path consists only of '/' |
| Paths.ParseNameSpec | src/utils.ts:13 | `path.parse(p).name` is empty exactly for all-'/' paths and holds no '/'; it is the base name cut at its last '.', and it is shorter than the base name exactly when the base name is not ".." and has a '.' after its first character |
| Paths.Join | src/gatsby-node.ts:54-56 | a join is never empty and keeps its non-empty base as a prefix and its non-empty segment as a suffix |
| Utils.Message | src/utils.ts:27-45 | both plugin errors start with the plugin name and ": ", and a collision message names the colliding extension |
| Utils.Upper | src/utils.ts:8 | upper-casing gives no lower-case letter, maps a lower-case letter to its capital and leaves every other character alone |
| Utils.ToTitleCase | src/utils.ts:6-9 | `toTitleCase` needs a non-empty string, keeps the length and every character after the first, and replaces the first character by its upper-case form, so it is never lower-case and a lower-case one always changes |
| Utils.ToTitleCaseIdempotent | src/utils.ts:6-9 | title-casing twice is title-casing once |
| Utils.CreateName | src/utils.ts:12-16 | `createName`, defined as "fileBy", the title-cased parsed name, then "Path"; it needs a non-empty parsed name, and what it gives is stated by CreateNameShape and CreateNameCollision |
| Utils.CreateNameShape | src/utils.ts:12-16 | a name (defined only for a non-empty parsed name) is ten characters longer than the parsed name, starts with "fileBy", ends with "Path", and holds the title-cased parsed name between them |
| Utils.CreateNameCollision | src/utils.ts:12-16 | two directories derive the same name exactly when their parsed names agree after the first character and agree on it once upper-cased |
| Utils.Strings | src/utils.ts:54 | dropping the non-string elements never lengthens the list |
| Utils.StringsMembers | src/utils.ts:41 | a string survives the filter exactly when it is an element of the list |
| Utils.StringsAppend | src/utils.ts:40-54 | the filter keeps the elements' order: filtering a concatenation is concatenating the filtered parts |
| Utils.StringsIndex | src/utils.ts:40-54 | a string element keeps its place among the surviving strings |
| Utils.StringsIndexOrder | src/utils.ts:40-54 | an earlier string element comes out before a later one |
| Utils.DistinctCons | src/utils.ts:44-47 | a name can be added to a list of distinct names exactly when it is not yet among them |
| Utils.NameOf | src/utils.ts:41-42 | the name the list callback derives for a string element: `createName(dir)`, or no name where `createName` throws on an empty parsed name |
| Utils.NamesCons | src/utils.ts:40-48 | a directory put in front of a list is named exactly when it and the rest are, and then its name and entry come first |
| Utils.ListExtsSpec | src/utils.ts:38-56 | for any name derivation, the list form succeeds exactly when every string element derives a name and the names are pairwise distinct and new; it then yields one entry per string element, in order, each named by the derivation |
| Utils.ListExts | src/utils.ts:38-56 | the list form as a definition over any name derivation, element by element with the set of names taken so far; what it gives is stated by ListExtsSpec, ListExtsCollision, ListExtsErrors, ListExtsNamedErrors and ListExtsTypeError |
| Utils.ListExtsCollision | src/utils.ts:44-45 | an "already exists" error names a name that a string element derives and that an earlier string element, or the seen set, already took; the lemma returns the two positions |
| Utils.ListExtsErrors | src/utils.ts:38-56 | the list form fails only with a type error or an "already exists" error, never with "No 'dirs' passed" |
| Utils.ListExtsNamedErrors | src/utils.ts:44-45 | when every string element derives a name, the only possible failure is an "already exists" error |
| Utils.ListExtsTypeError | src/utils.ts:41-42 | a type error is caused by a string element from which no name can be derived |
| Utils.ProcessList | src/utils.ts:38-56 | the loop over the list, with its set of seen names, returns exactly what the list form specifies |
| Utils.ObjExts | src/utils.ts:59-66 | the map form yields at most one entry per property: every entry is a string-valued property with its key unchanged, and every string-valued property is among the entries |
| Utils.ObjExtsAppend | src/utils.ts:59-66 | the map form keeps the entries' order |
| Utils.ObjExtsVerbatim | src/utils.ts:59-66 | when every value is a string, entry i is exactly (key i, value i) |
| Utils.FieldExts | src/utils.ts:23-70 | the reference definition of what `createFieldExts` returns or throws, branch by branch; the FieldExts lemmas state what each branch gives and CreateFieldExts is proved equal to it |
| Utils.CreateFieldExts | src/utils.ts:23-70 | `createFieldExts` returns or throws exactly what the specification `FieldExts` gives for every input |
| Utils.FieldExtsFalsy | src/utils.ts:26-28 | a falsy `dirs` throws "No 'dirs' passed" and yields no entries |
| Utils.FieldExtsString | src/utils.ts:30-35 | a string yields the one entry (createName(dirs), dirs), or a type error when its parsed name is empty |
| Utils.FieldExtsList | src/utils.ts:38-56 | a list succeeds exactly when its string elements all derive names and the names are pairwise distinct; the entries are the string elements in order, each named by `createName` |
| Utils.FieldExtsListDuplicate | src/utils.ts:39-48 | two string elements deriving one name make the list form fail, and with an "already exists" error whenever every string element derives a name |
| Utils.FieldExtsListDistinct | src/utils.ts:39-56 | a successful list result never has two entries with one name |
| Utils.FieldExtsListCollision | src/utils.ts:44-45 | an "already exists" error names a name that two different string elements both derive with `createName` |
| Utils.FieldExtsOther | src/utils.ts:69 | a truthy value that is not a string, list or object yields no entries and no error |
| Utils.TwoEntryMap | src/utils.ts:59-66 | `{a: "dirA", b: "dirB"}` yields (a, dirA), (b, dirB) |
| Resolver.FieldValue | src/gatsby-node.ts:29-30 | `src[fieldName]`, a missing property reading as `undefined` |
| Resolver.PartialPaths | src/gatsby-node.ts:35-36 | a list field is its own list of segments, any other value a one-segment list |
| Resolver.MissingMessage | src/gatsby-node.ts:51 | the missing-directory error starts with the plugin name and ": ", names the base path next, and ends with " doesn't exist" |
| Resolver.BasePath | src/gatsby-node.ts:40-48 | the choice of base path, defined from the bound directory and the `path` option; what it gives is stated by BasePathChoice |
| Resolver.BasePathChoice | src/gatsby-node.ts:40-48 | a truthy bound dir wins; otherwise a string `path` option is used; otherwise there is no base path |
| Resolver.FilePaths | src/gatsby-node.ts:54-56 | joining succeeds exactly when every segment is a string; it then gives one path per segment, in order, each equal to join(baseDir, segment); otherwise it throws on the first non-string segment |
| Resolver.FindByPath | src/gatsby-node.ts:95-97 | `find` returns a node exactly when some node has the path, and the node it returns is the first one with that path |
| Resolver.OrderByPaths | src/gatsby-node.ts:94-98 | one slot per candidate path; slot i is filled exactly when some node has path i, and then holds the first such node |
| Resolver.Prepare | src/gatsby-node.ts:29-56 | the steps before the query, defined as a plan: finish with null or an error, or query the joined paths; what it gives is stated by ResolveFalsyField, ResolveNoBasePath, ResolveMissingBaseDir, ResolveNonStringSegment and ResolveQuery |
| Resolver.Shape | src/gatsby-node.ts:77-100 | the shaping of the query's answer into null, an error, one node or ordered slots; what it gives is stated by ResolveNullAnswer, ResolveSingle, ResolveOrdered and ResolveSingleNoMatch |
| Resolver.Resolve | src/gatsby-node.ts:23-101 | one call of the resolver, Prepare then the query then Shape, returning the outcome and the query made; its properties are the Resolve lemmas below |
| Resolver.ResolveFalsyField | src/gatsby-node.ts:29-33 | a falsy field value returns null and makes no query |
| Resolver.ResolveNoBasePath | src/gatsby-node.ts:44-46 | with no truthy bound dir, and no options or a non-string `path`, the result is null and no query is made |
| Resolver.ResolveMissingBaseDir | src/gatsby-node.ts:49-52 | a base directory missing on disk throws an error naming the base path, and no query is made |
| Resolver.ResolveNonStringSegment | src/gatsby-node.ts:49-56 | once the base directory exists, the first segment that is not a string makes the join throw with that segment, and no query is made |
| Resolver.ResolveQuery | src/gatsby-node.ts:35-75 | a query is made exactly when the field is truthy, a base path exists on disk and every segment is a string; it asks for one joined path per segment, in order |
| Resolver.ResolveSingle | src/gatsby-node.ts:89-91 | a non-list field whose query yields exactly one node returns that node unwrapped |
| Resolver.ResolveOrdered | src/gatsby-node.ts:93-100 | every other answered case returns the ordered slots, one per candidate path; slot i is filled exactly when some node at path i was returned, and then holds the first such node |
| Resolver.ResolveNullAnswer | src/gatsby-node.ts:77-87 | a null query answer returns null, or throws when verbose logging reads its length |
| Resolver.ResolveSingleNoMatch | src/gatsby-node.ts:89-100 | a non-list field whose query finds nothing returns a one-slot list with an empty slot, not null |
| Resolver.FindByPathKeyed | src/gatsby-node.ts:95-97 | when paths identify nodes, the lookup finds exactly the node at that path |
| Resolver.OrderByPathsPermutation | src/gatsby-node.ts:93-98 | when paths identify nodes, the ordered list is the same for any order of the query's answer |
| Resolver.ResolveOrderIndependent | src/gatsby-node.ts:65-100 | when paths identify nodes, two queries that return the same nodes in any order give the same response; without that, `find` taking the first match makes the order matter |
| Resolver.OrderByPathsComplete | src/gatsby-node.ts:93-98 | when paths identify nodes, each returned node at a candidate path fills that candidate's slot |
| Resolver.TwoPathsInFieldOrder | src/gatsby-node.ts:23-100 | with root `/root`, bound dir `assets` and field `["a.png", "b.png"]`, a query that answers [b, a] still resolves to [a, b] |

## Left out

- `createSchemaCustomization` (src/gatsby-node.ts:103-150) is not modelled. It registers the extensions with the host and turns every error into a warning.
- Reporter logging and the `NODE_ENV` gating are output only and are not modelled. The one effect of logging on the result is modelled: the null-length error behind `verbose`.
- `fs.existsSync` and `context.nodeModel.runQuery` are parameters. The query's `await` and its rejections are not modelled.
- `src/constants.ts` is not part of this model. Messages take the plugin name as a parameter.
- Paths.Join: does not normalise `.`, `..`, repeated `/` or a trailing `/` the way `path.posix.join` does. So whenever the root, a base path or a segment contains one of those, the model's candidate paths differ from the source's: the existence check sees a different string, and a node at the normalised path fills the source's slot but not the model's (bound directory `images/` gives `/root/images//a.png` here and `/root/images/a.png` in the source). The join is kept simple because normalisation is a separate algorithm that the plugin does not implement itself.
- Paths.ParseNameSpec: states the name on '/'-separated strings only. `path.parse` on Windows separators is not modelled.
- Utils.Upper: upper-cases ASCII letters only, because JavaScript's Unicode case mapping (which can change a string's length) is out of scope. A character here is a Unicode scalar value, as in `toTitleCase`'s code-point split, so only strings with lone surrogates split differently.
- Utils.ObjExts: takes an object's properties in the order `Object.entries` lists them. That order (integer-like keys first) is not derived from the object.
- Numbers are integers. NaN, `-0` and fractions are left out, so `Num(0)` is the only falsy number.
- Non-`File` host nodes, and nodes without an `absolutePath` property, are not modelled. A node always has a path.
