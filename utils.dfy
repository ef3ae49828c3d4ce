/**
 * The option normaliser of src/utils.ts: it turns the plugin's `dirs`
 * option into the ordered list of field extensions (name, directory)
 * that the plugin registers.
 */
module Utils {
  import opened Wrappers
  import opened JsValue
  import opened Paths

  /** One field extension to register: `@name` resolves paths relative to `dir`. */
  datatype Ext = Ext(name: string, dir: string)

  /**
   * The errors `createFieldExts` throws. `TypeError` is the engine's error
   * when `toTitleCase` is handed an empty name (its first character is
   * `undefined`), which happens for a directory such as "/" or "".
   */
  datatype ConfigError =
    | NoDirs
    | AlreadyExists(name: string)
    | TypeError(dir: string)

  /** The text of the two errors the plugin raises itself, prefixed by the plugin's name. */
  function Message(e: ConfigError, pluginName: string): (r: string)
    requires !e.TypeError?
    ensures |pluginName| + 2 <= |r| && r[..|pluginName| + 2] == pluginName + ": "
    ensures e.AlreadyExists? ==>
      |pluginName| + 2 + |e.name| <= |r| && r[|pluginName| + 2..|pluginName| + 2 + |e.name|] == e.name
  {
    var head := pluginName + ": ";
    var tail := match e
      case NoDirs => "No 'dirs' passed to this plugin's options."
      case AlreadyExists(name) => name + " already exists.";
    assert (head + tail)[..|head|] == head;
    assert e.AlreadyExists? ==> (head + tail)[|head|..|head| + |e.name|] == tail[..|e.name|] == e.name;
    head + tail
  }

  predicate IsLower(c: char) {
    'a' <= c <= 'z'
  }

  /** `toUpperCase` on one character, for the ASCII letters only. */
  function Upper(c: char): (r: char)
    ensures !IsLower(r)
    ensures IsLower(c) ==> 'A' <= r <= 'Z' && r as int - 'A' as int == c as int - 'a' as int
    ensures !IsLower(c) ==> r == c
  {
    if IsLower(c) then (c as int - 32) as char else c
  }

  /**
   * `toTitleCase`: only the first character is upper-cased. The source
   * reads the first character of its argument unguarded, so it needs a
   * non-empty string.
   */
  function ToTitleCase(s: string): (r: string)
    requires s != []
    ensures |r| == |s| && r[1..] == s[1..]
    ensures r[0] == Upper(s[0])
    ensures !IsLower(r[0]) && (IsLower(s[0]) ==> r[0] != s[0])
    ensures !IsLower(s[0]) ==> r == s
  {
    [Upper(s[0])] + s[1..]
  }

  lemma {:induction false} ToTitleCaseIdempotent(s: string)
    requires s != []
    ensures ToTitleCase(ToTitleCase(s)) == ToTitleCase(s)
  {
  }

  /** `createName`: the extension name derived from a directory. */
  function CreateName(dir: string): string
    requires ParseName(dir) != []
  {
    "fileBy" + ToTitleCase(ParseName(dir)) + "Path"
  }

  /**
   * A derived name starts with "fileBy", ends with "Path", and holds the
   * title-cased parsed name between the two.
   */
  lemma CreateNameShape(dir: string)
    requires ParseName(dir) != []
    ensures |CreateName(dir)| == |ParseName(dir)| + 10
    ensures CreateName(dir)[..6] == "fileBy" && CreateName(dir)[|CreateName(dir)| - 4..] == "Path"
    ensures CreateName(dir)[6..|CreateName(dir)| - 4] == ToTitleCase(ParseName(dir))
  {
    var t := ToTitleCase(ParseName(dir));
    var r := "fileBy" + t + "Path";
    assert r[..6] == "fileBy" && r[6..|r| - 4] == t && r[|r| - 4..] == "Path";
  }

  /**
   * Two directories derive the same extension name exactly when their
   * parsed names agree after the first character, and their first
   * characters agree once upper-cased.
   */
  lemma {:induction false} CreateNameCollision(a: string, b: string)
    requires ParseName(a) != [] && ParseName(b) != []
    ensures CreateName(a) == CreateName(b) <==>
      ParseName(a)[1..] == ParseName(b)[1..] && Upper(ParseName(a)[0]) == Upper(ParseName(b)[0])
  {
    var pa, pb := ParseName(a), ParseName(b);
    var ta, tb := ToTitleCase(pa), ToTitleCase(pb);
    CreateNameShape(a);
    CreateNameShape(b);
    assert CreateName(a) == CreateName(b) <==> ta == tb by {
      assert CreateName(a) == CreateName(b) ==> ta == tb;
    }
    assert ta == tb <==> pa[1..] == pb[1..] && Upper(pa[0]) == Upper(pb[0]) by {
      assert ta == [Upper(pa[0])] + pa[1..] && tb == [Upper(pb[0])] + pb[1..];
      assert ta == tb ==> ta[0] == tb[0] && ta[1..] == tb[1..];
    }
  }

  // ---------------------------------------------------------------------
  // The list form
  // ---------------------------------------------------------------------

  /** The string elements of a list, in order; every other element is dropped. */
  function Strings(items: seq<Value>): (r: seq<string>)
    ensures |r| <= |items|
    decreases |items|
  {
    if items == [] then []
    else (if items[0].Str? then [items[0].s] else []) + Strings(items[1..])
  }

  /** A string is among the kept ones exactly when it is an element of the list. */
  lemma {:induction false} StringsMembers(items: seq<Value>, s: string)
    ensures s in Strings(items) <==> Str(s) in items
    decreases |items|
  {
    if items != [] {
      assert Str(s) in items <==> items[0] == Str(s) || Str(s) in items[1..];
      StringsMembers(items[1..], s);
    }
  }

  lemma {:induction false} StringsAppend(a: seq<Value>, b: seq<Value>)
    ensures Strings(a + b) == Strings(a) + Strings(b)
    decreases |a|
  {
    if a == [] {
      assert a + b == b;
    } else {
      assert (a + b)[0] == a[0];
      assert (a + b)[1..] == a[1..] + b;
      StringsAppend(a[1..], b);
    }
  }

  /**
   * The name the list callback derives for one directory: `createName(dir)`,
   * or None where `createName` throws because the parsed name is empty.
   */
  function NameOf(dir: string): Option<string> {
    if ParseName(dir) == [] then None else Some(CreateName(dir))
  }

  // The list form is stated for any name derivation `derive`, so that its
  // properties do not depend on how a name is computed; `createFieldExts`
  // uses `NameOf`.

  /** Every directory derives a name, so the derivation throws on none of them. */
  predicate AllNamed(derive: string -> Option<string>, ds: seq<string>) {
    forall i :: 0 <= i < |ds| ==> derive(ds[i]).Some?
  }

  /** The derived names, in the directories' order. */
  function Names(derive: string -> Option<string>, ds: seq<string>): (r: seq<string>)
    requires AllNamed(derive, ds)
  {
    seq(|ds|, i requires 0 <= i < |ds| => derive(ds[i]).value)
  }

  /** One entry per directory, named by the derivation, in the same order. */
  function Entries(derive: string -> Option<string>, ds: seq<string>): (r: seq<Ext>)
    requires AllNamed(derive, ds)
  {
    seq(|ds|, i requires 0 <= i < |ds| => Ext(derive(ds[i]).value, ds[i]))
  }

  predicate Distinct(ns: seq<string>) {
    forall i, j :: 0 <= i < j < |ns| ==> ns[i] != ns[j]
  }

  lemma {:induction false} DistinctCons(n: string, ns: seq<string>)
    ensures Distinct([n] + ns) <==> n !in ns && Distinct(ns)
  {
    var s := [n] + ns;
    if Distinct(s) {
      forall i, j | 0 <= i < j < |ns| ensures ns[i] != ns[j] {
        assert s[i + 1] == ns[i] && s[j + 1] == ns[j];
      }
      forall k | 0 <= k < |ns| ensures ns[k] != n {
        assert s[0] != s[k + 1];
      }
    }
    if n !in ns && Distinct(ns) {
      forall i, j | 0 <= i < j < |s| ensures s[i] != s[j] {
        if i == 0 {
          assert s[j] == ns[j - 1];
        } else {
          assert s[i] == ns[i - 1] && s[j] == ns[j - 1];
        }
      }
    }
  }

  lemma NamesCons(derive: string -> Option<string>, d: string, ds: seq<string>)
    ensures AllNamed(derive, [d] + ds) <==> derive(d).Some? && AllNamed(derive, ds)
    ensures AllNamed(derive, [d] + ds) ==>
      Names(derive, [d] + ds) == [derive(d).value] + Names(derive, ds)
      && Entries(derive, [d] + ds) == [Ext(derive(d).value, d)] + Entries(derive, ds)
  {
    var s := [d] + ds;
    assert s[0] == d;
    assert forall i :: 0 < i < |s| ==> s[i] == ds[i - 1];
    if AllNamed(derive, s) {
      forall i | 0 <= i < |ds| ensures derive(ds[i]).Some? {
        assert s[i + 1] == ds[i];
      }
    }
  }

  /** Prefix the entries of a successful result; an error passes through. */
  function Prepend(pre: seq<Ext>, r: Result<seq<Ext>, ConfigError>): Result<seq<Ext>, ConfigError> {
    match r
    case Ok(es) => Ok(pre + es)
    case Err(e) => Err(e)
  }

  /**
   * The list form, element by element: `seen` is the set of names the
   * elements before these have already taken. The first string element
   * whose name cannot be derived or is already taken ends the run with an
   * error; every other element is skipped.
   */
  function ListExts(derive: string -> Option<string>, items: seq<Value>, seen: set<string>): Result<seq<Ext>, ConfigError>
    decreases |items|
  {
    if items == [] then Ok([])
    else
      match items[0]
      case Str(d) =>
        (match derive(d)
         case None => Err(TypeError(d))
         case Some(name) =>
           if name in seen then Err(AlreadyExists(name))
           else Prepend([Ext(name, d)], ListExts(derive, items[1..], seen + {name})))
      case _ => ListExts(derive, items[1..], seen)
  }

  /**
   * The list form succeeds exactly when every string element derives a
   * name, the derived names are pairwise distinct and none was taken
   * before; it then yields one entry per string element, in order.
   */
  lemma {:induction false} ListExtsSpec(derive: string -> Option<string>, items: seq<Value>, seen: set<string>)
    ensures ListExts(derive, items, seen).Ok? <==>
      AllNamed(derive, Strings(items)) && Distinct(Names(derive, Strings(items)))
      && forall m :: m in Names(derive, Strings(items)) ==> m !in seen
    ensures ListExts(derive, items, seen).Ok? ==>
      AllNamed(derive, Strings(items)) && ListExts(derive, items, seen).value == Entries(derive, Strings(items))
    decreases |items|
  {
    if items == [] {
      assert Strings(items) == [];
    } else {
      var rest := items[1..];
      var ss := Strings(rest);
      match items[0]
      case Str(d) =>
        assert Strings(items) == [d] + ss;
        NamesCons(derive, d, ss);
        if derive(d).Some? {
          var name := derive(d).value;
          ListExtsSpec(derive, rest, seen + {name});
          if AllNamed(derive, ss) {
            DistinctCons(name, Names(derive, ss));
          }
        }
      case _ =>
        assert Strings(items) == ss;
        ListExtsSpec(derive, rest, seen);
    }
  }

  /** Directory `j` of `ds` derives the extension name `n`. */
  predicate DerivesAt(derive: string -> Option<string>, ds: seq<string>, j: int, n: string) {
    0 <= j < |ds| && derive(ds[j]) == Some(n)
  }

  /**
   * A name-collision error names a name that string element `j` derives
   * and that was taken either before the list or by an earlier element `i`
   * (`i` is -1 when it was taken before).
   */
  lemma {:induction false} ListExtsCollision(derive: string -> Option<string>, items: seq<Value>, seen: set<string>, n: string)
    returns (i: int, j: nat)
    requires ListExts(derive, items, seen) == Err(AlreadyExists(n))
    ensures DerivesAt(derive, Strings(items), j, n)
    ensures if i < 0 then n in seen else i < j && DerivesAt(derive, Strings(items), i, n)
    decreases |items|
  {
    var rest := items[1..];
    var ss := Strings(rest);
    var all := Strings(items);
    match items[0]
    case Str(d) =>
      assert all == [d] + ss;
      var name := derive(d).value;
      if name in seen {
        i, j := -1, 0;
      } else {
        var i', j' := ListExtsCollision(derive, rest, seen + {name}, n);
        assert all[j' + 1] == ss[j'];
        j := j' + 1;
        if i' >= 0 {
          assert all[i' + 1] == ss[i'];
          i := i' + 1;
        } else if n == name {
          i := 0;
        } else {
          i := -1;
        }
      }
    case _ =>
      assert all == ss;
      i, j := ListExtsCollision(derive, rest, seen, n);
  }

  /** The list form fails only with a type error or a name collision. */
  lemma {:induction false} ListExtsErrors(derive: string -> Option<string>, items: seq<Value>, seen: set<string>)
    ensures ListExts(derive, items, seen).Err? ==>
      ListExts(derive, items, seen).error.TypeError? || ListExts(derive, items, seen).error.AlreadyExists?
    decreases |items|
  {
    if items != [] {
      match items[0]
      case Str(d) =>
        if derive(d).Some? {
          ListExtsErrors(derive, items[1..], seen + {derive(d).value});
        }
      case _ =>
        ListExtsErrors(derive, items[1..], seen);
    }
  }

  /** When every string element derives a name, the list form can fail only with a name collision. */
  lemma {:induction false} ListExtsNamedErrors(derive: string -> Option<string>, items: seq<Value>, seen: set<string>)
    requires AllNamed(derive, Strings(items))
    ensures ListExts(derive, items, seen).Err? ==> ListExts(derive, items, seen).error.AlreadyExists?
    decreases |items|
  {
    if items != [] {
      var ss := Strings(items[1..]);
      match items[0]
      case Str(d) =>
        assert Strings(items) == [d] + ss;
        NamesCons(derive, d, ss);
        ListExtsNamedErrors(derive, items[1..], seen + {derive(d).value});
      case _ =>
        assert Strings(items) == ss;
        ListExtsNamedErrors(derive, items[1..], seen);
    }
  }

  /** A type error names a string element that derives no name. */
  lemma {:induction false} ListExtsTypeError(derive: string -> Option<string>, items: seq<Value>, seen: set<string>, d: string)
    requires ListExts(derive, items, seen) == Err(TypeError(d))
    ensures Str(d) in items && derive(d).None?
    decreases |items|
  {
    match items[0]
    case Str(d0) =>
      if derive(d0).Some? {
        ListExtsTypeError(derive, items[1..], seen + {derive(d0).value}, d);
      }
    case _ =>
      ListExtsTypeError(derive, items[1..], seen, d);
  }

  // ---------------------------------------------------------------------
  // The map form
  // ---------------------------------------------------------------------

  /** The map form: each entry whose value is a string becomes an entry, its key used verbatim. */
  function ObjExts(entries: seq<(string, Value)>): (r: seq<Ext>)
    ensures |r| <= |entries|
    ensures forall e :: e in r ==> (e.name, Str(e.dir)) in entries
    ensures forall k, d :: (k, Str(d)) in entries ==> Ext(k, d) in r
    decreases |entries|
  {
    if entries == [] then []
    else
      var rest := ObjExts(entries[1..]);
      assert forall x :: x in entries <==> x == entries[0] || x in entries[1..];
      (if entries[0].1.Str? then [Ext(entries[0].0, entries[0].1.s)] else []) + rest
  }

  /** The map form keeps the entries' relative order. */
  lemma {:induction false} ObjExtsAppend(a: seq<(string, Value)>, b: seq<(string, Value)>)
    ensures ObjExts(a + b) == ObjExts(a) + ObjExts(b)
    decreases |a|
  {
    if a == [] {
      assert a + b == b;
    } else {
      assert (a + b)[0] == a[0];
      assert (a + b)[1..] == a[1..] + b;
      ObjExtsAppend(a[1..], b);
    }
  }

  /** When every value is a string, the map form yields every entry, verbatim and in order. */
  lemma {:induction false} ObjExtsVerbatim(entries: seq<(string, Value)>)
    requires forall i :: 0 <= i < |entries| ==> entries[i].1.Str?
    ensures |ObjExts(entries)| == |entries|
    ensures forall i :: 0 <= i < |entries| ==> ObjExts(entries)[i] == Ext(entries[i].0, entries[i].1.s)
    decreases |entries|
  {
    if entries != [] {
      ObjExtsVerbatim(entries[1..]);
      assert ObjExts(entries) == [Ext(entries[0].0, entries[0].1.s)] + ObjExts(entries[1..]);
    }
  }

  // ---------------------------------------------------------------------
  // createFieldExts
  // ---------------------------------------------------------------------

  /** What `createFieldExts(dirs)` returns or throws. */
  function FieldExts(dirs: Value): Result<seq<Ext>, ConfigError> {
    if !Truthy(dirs) then Err(NoDirs)
    else
      match dirs
      case Str(d) =>
        if ParseName(d) == [] then Err(TypeError(d)) else Ok([Ext(CreateName(d), d)])
      case Arr(items) => ListExts(NameOf, items, {})
      case Obj(entries) => Ok(ObjExts(entries))
      case _ => Ok([])
  }

  lemma PrependNil(r: Result<seq<Ext>, ConfigError>)
    ensures Prepend([], r) == r
  {
    if r.Ok? {
      assert [] + r.value == r.value;
    }
  }

  lemma PrependAssoc(a: seq<Ext>, b: seq<Ext>, r: Result<seq<Ext>, ConfigError>)
    ensures Prepend(a, Prepend(b, r)) == Prepend(a + b, r)
  {
    if r.Ok? {
      assert a + (b + r.value) == (a + b) + r.value;
    }
  }

  /**
   * The list branch of `createFieldExts`: the `map` callback runs over the
   * elements in order, skipping non-strings, recording each derived name in
   * `names` and throwing on the first empty or repeated one.
   */
  method ProcessList(items: seq<Value>) returns (r: Result<seq<Ext>, ConfigError>)
    ensures r == ListExts(NameOf, items, {})
  {
    var names: set<string> := {};
    var processed: seq<Ext> := [];
    var i := 0;
    assert items[i..] == items;
    PrependNil(ListExts(NameOf, items, {}));
    while i < |items|
      invariant 0 <= i <= |items|
      invariant ListExts(NameOf, items, {}) == Prepend(processed, ListExts(NameOf, items[i..], names))
    {
      assert items[i..][0] == items[i] && items[i..][1..] == items[i + 1..];
      if items[i].Str? {
        var d := items[i].s;
        if ParseName(d) == [] {
          return Err(TypeError(d));
        }
        var name := CreateName(d);
        if name in names {
          return Err(AlreadyExists(name));
        }
        PrependAssoc(processed, [Ext(name, d)], ListExts(NameOf, items[i + 1..], names + {name}));
        names := names + {name};
        processed := processed + [Ext(name, d)];
      }
      i := i + 1;
    }
    assert items[i..] == [];
    assert processed + [] == processed;
    return Ok(processed);
  }

  /** `createFieldExts`: pushes the entries into a fresh list, throwing on the first bad element. */
  method CreateFieldExts(dirs: Value) returns (r: Result<seq<Ext>, ConfigError>)
    ensures r == FieldExts(dirs)
  {
    var fieldExts: seq<Ext> := [];
    if !Truthy(dirs) {
      return Err(NoDirs);
    }
    if dirs.Str? {
      var d := dirs.s;
      assert dirs == Str(d);
      if ParseName(d) == [] {
        return Err(TypeError(d));
      }
      fieldExts := fieldExts + [Ext(CreateName(d), d)];
      assert fieldExts == [Ext(CreateName(d), d)];
      return Ok(fieldExts);
    }
    if dirs.Arr? {
      assert FieldExts(dirs) == ListExts(NameOf, dirs.elems, {});
      var processed := ProcessList(dirs.elems);
      if processed.Err? {
        return processed;
      }
      fieldExts := fieldExts + processed.value;
      assert fieldExts == processed.value;
      return Ok(fieldExts);
    }
    if dirs.Obj? {
      assert FieldExts(dirs) == Ok(ObjExts(dirs.entries));
      fieldExts := fieldExts + ObjExts(dirs.entries);
      assert fieldExts == ObjExts(dirs.entries);
      return Ok(fieldExts);
    }
    return Ok(fieldExts);
  }

  // ---------------------------------------------------------------------
  // Properties of createFieldExts
  // ---------------------------------------------------------------------

  /** A falsy `dirs` throws "No 'dirs' passed" and yields no entries. */
  lemma {:induction false} FieldExtsFalsy(dirs: Value)
    requires !Truthy(dirs)
    ensures FieldExts(dirs) == Err(NoDirs)
  {
  }

  /** A non-empty string yields the one entry named after it, unless its name is empty. */
  lemma {:induction false} FieldExtsString(d: string)
    requires d != []
    ensures ParseName(d) != [] ==> FieldExts(Str(d)) == Ok([Ext(CreateName(d), d)])
    ensures ParseName(d) == [] ==> FieldExts(Str(d)) == Err(TypeError(d))
  {
  }

  /**
   * The list form succeeds exactly when the string elements all derive
   * names and those names are pairwise distinct; the entries are then the
   * string elements, in order, each named by `createName`.
   */
  lemma {:induction false} FieldExtsList(items: seq<Value>)
    ensures FieldExts(Arr(items)).Ok? <==>
      AllNamed(NameOf, Strings(items)) && Distinct(Names(NameOf, Strings(items)))
    ensures FieldExts(Arr(items)).Ok? ==>
      AllNamed(NameOf, Strings(items)) && FieldExts(Arr(items)).value == Entries(NameOf, Strings(items))
  {
    ListExtsSpec(NameOf, items, {});
  }

  /** The position that element `i` of a list, a string, takes among the list's strings. */
  lemma {:induction false} StringsIndex(items: seq<Value>, i: nat)
    requires i < |items| && items[i].Str?
    ensures |Strings(items[..i])| < |Strings(items)|
    ensures Strings(items)[|Strings(items[..i])|] == items[i].s
  {
    assert items == items[..i] + items[i..];
    StringsAppend(items[..i], items[i..]);
    assert items[i..][0] == items[i];
  }

  /** Strings come out in the order of their elements. */
  lemma {:induction false} StringsIndexOrder(items: seq<Value>, i: nat, j: nat)
    requires i < j <= |items| && items[i].Str?
    ensures |Strings(items[..i])| < |Strings(items[..j])|
  {
    assert items[..j] == items[..i] + items[i..j];
    StringsAppend(items[..i], items[i..j]);
    assert items[i..j][0] == items[i];
  }

  /** Two string elements of a list that derive the same name make the list form fail. */
  lemma {:induction false} FieldExtsListDuplicate(items: seq<Value>, i: nat, j: nat)
    requires i < j < |items| && items[i].Str? && items[j].Str?
    requires ParseName(items[i].s) != [] && ParseName(items[j].s) != []
    requires CreateName(items[i].s) == CreateName(items[j].s)
    ensures FieldExts(Arr(items)).Err?
    ensures AllNamed(NameOf, Strings(items)) ==> FieldExts(Arr(items)).error.AlreadyExists?
  {
    FieldExtsList(items);
    var ss := Strings(items);
    StringsIndex(items, i);
    StringsIndex(items, j);
    StringsIndexOrder(items, i, j);
    var p, q := |Strings(items[..i])|, |Strings(items[..j])|;
    if AllNamed(NameOf, ss) {
      assert Names(NameOf, ss)[p] == Names(NameOf, ss)[q];
      ListExtsNamedErrors(NameOf, items, {});
    }
  }

  /** A successful list form never registers two extensions under one name. */
  lemma {:induction false} FieldExtsListDistinct(items: seq<Value>, i: nat, j: nat)
    requires FieldExts(Arr(items)).Ok?
    requires i < j < |FieldExts(Arr(items)).value|
    ensures FieldExts(Arr(items)).value[i].name != FieldExts(Arr(items)).value[j].name
  {
    FieldExtsList(items);
    var ss := Strings(items);
    assert Names(NameOf, ss)[i] != Names(NameOf, ss)[j];
  }

  /** A collision error names a name that two string elements of the list both derive. */
  lemma {:induction false} FieldExtsListCollision(items: seq<Value>, n: string)
    requires FieldExts(Arr(items)) == Err(AlreadyExists(n))
    ensures exists i, j :: i < j && DerivesAt(NameOf, Strings(items), i, n) && DerivesAt(NameOf, Strings(items), j, n)
  {
    var i, j := ListExtsCollision(NameOf, items, {}, n);
  }

  /** Any other truthy value (a number, `true`, a function) yields no entries and no error. */
  lemma {:induction false} FieldExtsOther(dirs: Value)
    requires Truthy(dirs) && !dirs.Str? && !dirs.Arr? && !dirs.Obj?
    ensures FieldExts(dirs) == Ok([])
  {
  }

  /** A two-entry map `{a: "dirA", b: "dirB"}` gives `(a, dirA), (b, dirB)`: keys are used verbatim, in order. */
  lemma TwoEntryMap()
    ensures FieldExts(Obj([("a", Str("dirA")), ("b", Str("dirB"))])) == Ok([Ext("a", "dirA"), Ext("b", "dirB")])
  {
    var entries := [("a", Str("dirA")), ("b", Str("dirB"))];
    assert entries[1..] == [("b", Str("dirB"))] && entries[1..][1..] == [];
    assert ObjExts(entries[1..][1..]) == [];
    assert ObjExts(entries[1..]) == [Ext("b", "dirB")];
    assert ObjExts(entries) == [Ext("a", "dirA"), Ext("b", "dirB")];
  }
}
