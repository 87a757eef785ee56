/** What the compiler does with a source file once it is parsed, and the
    module-level bookkeeping: classifying an algorithm file by its header
    statement, splitting a module file around its `module()` statement,
    registering algorithms by name, collecting the computed properties a
    property depends on, and choosing what a module exports. */
module ModuleFile {
  import opened Errors
  import opened Syntax
  import opened Text
  import opened Common
  import opened Structure
  import opened Validators

  // ---------------------------------------------------------------------
  // Algorithm files (readJsFile)

  datatype AlgoKind = FunctionAlgo | PropertyAlgo

  /** A parsed `.js` source file: an algorithm introduced by a `fun`,
      `pfun` or `prop` header, or any other file, kept as it is. */
  datatype SourceFile =
    | Algorithm(kind: AlgoKind, isPrivate: bool, name: string, arguments: seq<string>, body: seq<Node>)
    | OtherFile(body: seq<Node>)

  /** The header call a statement makes, if it is `fun(...)`, `pfun(...)`
      or `prop(...)`. */
  predicate IsHeader(n: Node)
  {
    GetCall(n).Some? && GetCall(n).value.name in {"fun", "pfun", "prop"}
  }

  /** readJsFile after parsing: the first statement decides.  `fun(a, b)`
      and `pfun(a, b)` make a function (private for `pfun`) whose
      parameters must be distinct identifiers (SON0011, SON0022); `prop()`
      makes a property, which takes no parameters (SON0030); the header is
      dropped from the body.  Anything else is another file. */
  function ClassifyJs(name: string, body: seq<Node>): (r: Result<SourceFile>)
    ensures r.Ok? && r.value.OtherFile? <==> body == [] || !IsHeader(body[0])
    ensures r.Ok? && r.value.OtherFile? ==> r.value.body == body
    ensures r.Ok? && r.value.Algorithm? ==>
              && body != [] && IsHeader(body[0])
              && r.value.body == body[1..]
              && r.value.name == name
              && (r.value.isPrivate <==> GetCall(body[0]).value.name == "pfun")
              && (r.value.kind == PropertyAlgo <==> GetCall(body[0]).value.name == "prop")
              && NoDuplicates(r.value.arguments)
              && |r.value.arguments| == |GetCall(body[0]).value.arguments|
              && (forall i :: 0 <= i < |r.value.arguments| ==>
                    GetCall(body[0]).value.arguments[i] == Identifier(r.value.arguments[i]))
    ensures r.Fail? <==>
              && body != [] && IsHeader(body[0])
              && var call := GetCall(body[0]).value;
                 if call.name == "prop" then call.arguments != []
                 else (exists i :: 0 <= i < |call.arguments| && !call.arguments[i].Identifier?) ||
                      !NoDuplicates(EnsureIdentifiers(call.arguments).value)
    ensures r.Fail? ==> r.error in {Coded(SON0011), Coded(SON0022), Coded(SON0030)}
  {
    if body == [] || !IsHeader(body[0]) then Ok(OtherFile(body))
    else
      var call := GetCall(body[0]).value;
      if call.name == "prop" then
        if call.arguments != [] then Fail(Coded(SON0030))
        else Ok(Algorithm(PropertyAlgo, false, name, [], body[1..]))
      else
        var args :- EnsureIdentifiers(call.arguments);
        if !NoDuplicates(args) then Fail(Coded(SON0022))
        else Ok(Algorithm(FunctionAlgo, call.name == "pfun", name, args, body[1..]))
  }

  /** readJsFile, with the duplicate check done by areUnique. */
  method ReadJsFile(name: string, body: seq<Node>) returns (r: Result<SourceFile>)
    ensures r == ClassifyJs(name, body)
  {
    if body != [] {
      var call := GetCall(body[0]);
      if call.Some? {
        if call.value.name == "fun" || call.value.name == "pfun" {
          var args := EnsureIdentifiers(call.value.arguments);
          if args.Fail? {
            return Fail(args.error);
          }
          var unique := AreUnique(args.value);
          if !unique {
            return Fail(Coded(SON0022));
          }
          return Ok(Algorithm(FunctionAlgo, call.value.name == "pfun", name, args.value, body[1..]));
        }
        if call.value.name == "prop" {
          if |call.value.arguments| != 0 {
            return Fail(Coded(SON0030));
          }
          return Ok(Algorithm(PropertyAlgo, false, name, [], body[1..]));
        }
      }
    }
    return Ok(OtherFile(body));
  }

  // ---------------------------------------------------------------------
  // Module files (readSonFile)

  predicate IsModuleCall(n: Node)
  {
    GetCall(n).Some? && GetCall(n).value.name == "module"
  }

  /** The statements read so far: those before the first `module()`
      statement, those after it, and the arguments of the latest one. */
  datatype Split = Split(before: seq<Node>, after: seq<Node>, arguments: Option<ModuleArguments>)

  /** What readSonFile has gathered after the statements `body`.  Every
      `module()` statement has its arguments read by extractConfig, and a
      later one replaces the arguments of an earlier one; the statements
      in between stay in the after-part. */
  function SplitBy(body: seq<Node>): Result<Split>
  {
    if body == [] then Ok(Split([], [], None))
    else
      var s :- SplitBy(body[..|body| - 1]);
      var expr := body[|body| - 1];
      if IsModuleCall(expr) then
        var args :- ExtractConfigSpec(GetCall(expr).value.arguments);
        Ok(s.(arguments := Some(args)))
      else if s.arguments.Some? then Ok(s.(after := s.after + [expr]))
      else Ok(s.(before := s.before + [expr]))
  }

  /** A parsed module file: its name, its parameters and configuration, the
      statements before `module()` and the module body after it. */
  datatype ModuleSource = ModuleSource(name: string, arguments: seq<string>, config: map<string, Value>,
                                       before: seq<Node>, body: seq<Node>)

  /** readSonFile after parsing; SON0028 when there is no `module()`. */
  function ReadSonSpec(name: string, body: seq<Node>): Result<ModuleSource>
  {
    var s :- SplitBy(body);
    if s.arguments.None? then Fail(Coded(SON0028))
    else Ok(ModuleSource(name, s.arguments.value.names, s.arguments.value.config, s.before, s.after))
  }

  method ReadSonFile(name: string, body: seq<Node>) returns (r: Result<ModuleSource>)
    ensures r == ReadSonSpec(name, body)
  {
    var before: seq<Node> := [];
    var after: seq<Node> := [];
    var mod: Option<ModuleArguments> := None;
    for i := 0 to |body|
      invariant SplitBy(body[..i]) == Ok(Split(before, after, mod))
    {
      var expr := body[i];
      assert body[..i + 1][..i] == body[..i] && body[..i + 1][i] == expr;
      var call := GetCall(expr);
      if call.Some? && call.value.name == "module" {
        var args := ExtractConfig(call.value.arguments);
        if args.Fail? {
          SplitFails(body, i + 1);
          return Fail(args.error);
        }
        mod := Some(args.value);
      } else if mod.Some? {
        after := after + [expr];
      } else {
        before := before + [expr];
      }
    }
    assert body[..|body|] == body;
    if mod.None? {
      return Fail(Coded(SON0028));
    }
    r := Ok(ModuleSource(name, mod.value.names, mod.value.config, before, after));
  }

  /** The first statement that fails decides the error. */
  lemma {:induction false} SplitFails(body: seq<Node>, i: nat)
    requires i <= |body| && SplitBy(body[..i]).Fail?
    ensures SplitBy(body) == SplitBy(body[..i])
    decreases |body| - i
  {
    if i < |body| {
      var k := |body| - 1;
      assert body[..k][..i] == body[..i];
      SplitFails(body[..k], i);
    } else {
      assert body[..i] == body;
    }
  }

  /** The statements other than `module()` calls, in order. */
  function NonModule(body: seq<Node>): seq<Node>
  {
    if body == [] then []
    else NonModule(body[..|body| - 1]) + (if IsModuleCall(body[|body| - 1]) then [] else [body[|body| - 1]])
  }

  /** Every statement except the `module()` calls lands exactly once, in
      order, either before or after. */
  lemma {:induction false} SplitKeepsStatements(body: seq<Node>)
    requires SplitBy(body).Ok?
    ensures SplitBy(body).value.before + SplitBy(body).value.after == NonModule(body)
  {
    if body != [] {
      var k := |body| - 1;
      SplitKeepsStatements(body[..k]);
      var s := SplitBy(body[..k]).value;
      if !IsModuleCall(body[k]) && s.arguments.None? {
        assert s.after == [] by {
          BeforeModuleNothingAfter(body[..k]);
        }
      }
    }
  }

  /** Until the first `module()` statement nothing goes after it. */
  lemma {:induction false} BeforeModuleNothingAfter(body: seq<Node>)
    requires SplitBy(body).Ok? && SplitBy(body).value.arguments.None?
    ensures SplitBy(body).value.after == []
  {
    if body != [] {
      BeforeModuleNothingAfter(body[..|body| - 1]);
    }
  }

  /** Statements without a `module()` call all go before it. */
  lemma {:induction false} SplitNoModule(body: seq<Node>)
    requires forall i :: 0 <= i < |body| ==> !IsModuleCall(body[i])
    ensures SplitBy(body) == Ok(Split(body, [], None))
  {
    if body != [] {
      var k := |body| - 1;
      assert forall i :: 0 <= i < k ==> body[..k][i] == body[i];
      SplitNoModule(body[..k]);
      assert body[..k] + [body[k]] == body;
    }
  }

  /** Once `module()` was read, statements without one all go after it. */
  lemma {:induction false} SplitAfterModule(prefix: seq<Node>, post: seq<Node>)
    requires SplitBy(prefix).Ok? && SplitBy(prefix).value.arguments.Some?
    requires forall i :: 0 <= i < |post| ==> !IsModuleCall(post[i])
    ensures SplitBy(prefix + post) == Ok(SplitBy(prefix).value.(after := SplitBy(prefix).value.after + post))
    decreases |post|
  {
    if post == [] {
      assert prefix + post == prefix;
      assert SplitBy(prefix).value.after + post == SplitBy(prefix).value.after;
    } else {
      var k := |post| - 1;
      assert forall i :: 0 <= i < k ==> post[..k][i] == post[i];
      SplitAfterModule(prefix, post[..k]);
      var s := SplitBy(prefix).value;
      var whole := prefix + post;
      assert whole[..|whole| - 1] == prefix + post[..k];
      assert whole[|whole| - 1] == post[k];
      assert SplitBy(whole) == Ok(s.(after := (s.after + post[..k]) + [post[k]]));
      assert (s.after + post[..k]) + [post[k]] == s.after + post;
    }
  }

  /** A file `pre; module(args); post` with a single `module()` statement:
      the parameters and configuration are those of `args`, `pre` is kept
      before the module and `post` is its body. */
  lemma SingleModule(name: string, pre: seq<Node>, m: Node, post: seq<Node>)
    requires forall i :: 0 <= i < |pre| ==> !IsModuleCall(pre[i])
    requires forall i :: 0 <= i < |post| ==> !IsModuleCall(post[i])
    requires IsModuleCall(m) && ExtractConfigSpec(GetCall(m).value.arguments).Ok?
    ensures var args := ExtractConfigSpec(GetCall(m).value.arguments).value;
            ReadSonSpec(name, pre + [m] + post) == Ok(ModuleSource(name, args.names, args.config, pre, post))
  {
    var args := ExtractConfigSpec(GetCall(m).value.arguments).value;
    SplitNoModule(pre);
    var prefix := pre + [m];
    assert prefix[..|prefix| - 1] == pre;
    assert SplitBy(prefix) == Ok(Split(pre, [], Some(args)));
    SplitAfterModule(prefix, post);
    assert [] + post == post;
    assert SplitBy(prefix + post) == Ok(Split(pre, post, Some(args)));
    assert pre + [m] + post == prefix + post;
  }

  /** A file without a `module()` statement is rejected with SON0028. */
  lemma NoModuleStatement(name: string, body: seq<Node>)
    requires forall i :: 0 <= i < |body| ==> !IsModuleCall(body[i])
    ensures ReadSonSpec(name, body) == Fail(Coded(SON0028))
  {
    SplitNoModule(body);
  }

  // ---------------------------------------------------------------------
  // The algorithms of a module

  /** A function or property of a module, with the names of the properties
      it depends on. */
  datatype Algo = Algo(name: string, kind: AlgoKind, deps: seq<string>)

  /** The algorithms of one module, by name. */
  class ModuleAlgos {
    var algos: map<string, Algo>

    /** Every algorithm is stored under its own name. */
    predicate Valid()
      reads this
    {
      forall k :: k in algos ==> algos[k].name == k
    }

    constructor ()
      ensures algos == map[] && Valid()
    {
      algos := map[];
    }

    /** addToAlgos: SON0031 when the name is taken; otherwise the
        algorithm is added and nothing else changes. */
    method AddToAlgos(file: Algo) returns (err: Option<Error>)
      requires Valid()
      modifies this
      ensures Valid()
      ensures err.Some? <==> file.name in old(algos)
      ensures err.Some? ==> err.value == Coded(SON0031) && algos == old(algos)
      ensures err.None? ==> algos == old(algos)[file.name := file]
    {
      if file.name in algos {
        return Some(Coded(SON0031));
      }
      algos := algos[file.name := file];
      return None;
    }

    /** getAllDeps: the properties among the algorithms `start` depends on,
        directly or not, each once, dependencies first; SON0035 on a cycle. */
    method GetAllDeps(start: string) returns (r: Result<seq<string>>)
      requires start in algos && Closed(DepGraph(algos))
      ensures r.Ok? <==> SortSpec(DepGraph(algos), start).Ok?
      ensures r.Ok? ==> r.value == Properties(SortSpec(DepGraph(algos), start).value, algos)
      ensures r.Ok? ==> NoDuplicates(r.value)
      ensures r.Ok? ==> forall x :: x in r.value ==>
                IsProperty(algos, x) && Reachable(DepGraph(algos), start, x)
      ensures r.Fail? ==> CycleError(DepGraph(algos), start, r.error)
      ensures Acyclic(DepGraph(algos)) ==> r.Ok?
    {
      var graph := DepGraph(algos);
      var sorted := TopologicalSort(graph, start);
      if sorted.Fail? {
        return Fail(sorted.error);
      }
      PropertiesMeaning(sorted.value, algos);
      PropertiesDistinct(sorted.value, algos);
      r := Ok(Properties(sorted.value, algos));
    }
  }

  /** The dependency graph: each algorithm points to its dependencies. */
  function DepGraph(algos: map<string, Algo>): (g: map<string, seq<string>>)
    ensures g.Keys == algos.Keys
  {
    map k | k in algos :: algos[k].deps
  }

  /** The names in `s` that are properties, in order. */
  function Properties(s: seq<string>, algos: map<string, Algo>): seq<string>
  {
    if s == [] then []
    else (if IsProperty(algos, s[0]) then [s[0]] else []) + Properties(s[1..], algos)
  }

  predicate IsProperty(algos: map<string, Algo>, x: string)
  {
    x in algos && algos[x].kind == PropertyAlgo
  }

  lemma {:induction false} PropertiesMeaning(s: seq<string>, algos: map<string, Algo>)
    ensures forall x :: x in Properties(s, algos) <==> x in s && IsProperty(algos, x)
  {
    if s != [] {
      PropertiesMeaning(s[1..], algos);
      assert forall x :: x in s <==> x == s[0] || x in s[1..];
    }
  }

  lemma {:induction false} PropertiesDistinct(s: seq<string>, algos: map<string, Algo>)
    requires NoDuplicates(s)
    ensures NoDuplicates(Properties(s, algos))
  {
    if s != [] {
      var rest := s[1..];
      assert NoDuplicates(rest) by {
        forall i, j | 0 <= i < j < |rest|
          ensures rest[i] != rest[j]
        {
          assert rest[i] == s[i + 1] && rest[j] == s[j + 1];
        }
      }
      PropertiesDistinct(rest, algos);
      PropertiesMeaning(rest, algos);
      if IsProperty(algos, s[0]) {
        forall j | 0 <= j < |rest|
          ensures rest[j] != s[0]
        {
          assert rest[j] == s[j + 1];
        }
        var p := Properties(rest, algos);
        assert [s[0]] + p == Properties(s, algos);
        forall i, j | 0 <= i < j < |[s[0]] + p|
          ensures ([s[0]] + p)[i] != ([s[0]] + p)[j]
        {
          if i == 0 {
            assert ([s[0]] + p)[j] == p[j - 1];
          } else {
            assert ([s[0]] + p)[i] == p[i - 1] && ([s[0]] + p)[j] == p[j - 1];
          }
        }
      }
    }
  }

  /** The scope pass never records dependencies, so every `deps` is empty:
      the sort then yields just the starting algorithm. */
  lemma WithoutDepsOnlyStart(algos: map<string, Algo>, start: string)
    requires start in algos && forall k :: k in algos ==> algos[k].deps == []
    ensures Closed(DepGraph(algos))
    ensures SortSpec(DepGraph(algos), start) == Ok([start])
  {
    var g := DepGraph(algos);
    forall w | IsWalk(g, w)
      ensures |w| <= 1
    {
      ShortWalks(g, w);
    }
    SortSound(g, start);
    var out := SortSpec(g, start).value;
    forall x | x in out
      ensures x == start
    {
      var w :| IsWalk(g, w) && |w| > 0 && w[0] == start && w[|w| - 1] == x;
    }
    assert out[0] in out;
    assert out[0] == out[|out| - 1];
    assert out == [start];
  }

  /** Without edges every walk is a single node. */
  lemma ShortWalks(g: map<string, seq<string>>, w: seq<string>)
    requires forall k :: k in g ==> g[k] == []
    requires IsWalk(g, w)
    ensures |w| <= 1
  {
  }

  // ---------------------------------------------------------------------
  // Exports

  /** A compiled function of a module. */
  datatype Compiled = Compiled(name: string, isPrivate: bool, ast: Node)

  /** The names of the functions that are not private, in order. */
  function PublicNames(fs: seq<Compiled>): seq<string>
  {
    if fs == [] then []
    else (if fs[0].isPrivate then [] else [fs[0].name]) + PublicNames(fs[1..])
  }

  lemma {:induction false} PublicNamesMeaning(fs: seq<Compiled>)
    ensures forall x :: x in PublicNames(fs) <==> exists i :: 0 <= i < |fs| && !fs[i].isPrivate && fs[i].name == x
  {
    if fs != [] {
      PublicNamesMeaning(fs[1..]);
      assert forall i :: 1 <= i < |fs| ==> fs[i] == fs[1..][i - 1];
      forall x | x in PublicNames(fs)
        ensures exists i :: 0 <= i < |fs| && !fs[i].isPrivate && fs[i].name == x
      {
        if x !in PublicNames(fs[1..]) {
          assert !fs[0].isPrivate && fs[0].name == x;
        } else {
          var i :| 0 <= i < |fs[1..]| && !fs[1..][i].isPrivate && fs[1..][i].name == x;
          assert !fs[i + 1].isPrivate && fs[i + 1].name == x;
        }
      }
      forall x, i | 0 <= i < |fs| && !fs[i].isPrivate && fs[i].name == x
        ensures x in PublicNames(fs)
      {
        if i > 0 {
          assert !fs[1..][i - 1].isPrivate && fs[1..][i - 1].name == x;
        }
      }
    }
  }

  /** generateExportedObject: an object literal exporting every public
      function of the module under its own name, in sorted order. */
  method GenerateExportedObject(functions: seq<Compiled>) returns (r: Node)
    ensures r.ObjectExpr?
    ensures SortedStrings(ExportedNames(r))
    ensures multiset(ExportedNames(r)) == multiset(PublicNames(functions))
    ensures forall x :: x in ExportedNames(r) <==>
              exists i :: 0 <= i < |functions| && !functions[i].isPrivate && functions[i].name == x
    ensures forall i :: 0 <= i < |r.properties| ==>
              r.properties[i] == Property(Identifier(ExportedNames(r)[i]), Identifier(ExportedNames(r)[i]))
  {
    var lines := PublicNames(functions);
    r := CreateReturnObject(lines);
    ReturnObjectExports(lines, r);
    PublicNamesMeaning(functions);
    assert forall x :: x in ExportedNames(r) <==> x in multiset(ExportedNames(r));
    assert forall x :: x in lines <==> x in multiset(lines);
  }

  datatype Format = Es | CommonJs | OtherFormat

  /** A compiled function gets the `export` keyword in front of it only in
      an ES module of type "functions", and only when it is not private. */
  predicate ExportsFunction(format: Format, isPrivate: bool, moduleType: ModuleType)
  {
    format == Es && !isPrivate && moduleType == Functions
  }

  /** In an ES module of functions, the functions marked `export` are
      exactly the names that generateExportedObject exports for CommonJS;
      no other format or module type marks any function. */
  lemma ExportRuleAgreesWithObject(fs: seq<Compiled>, format: Format, moduleType: ModuleType)
    ensures (set i | 0 <= i < |fs| && ExportsFunction(Es, fs[i].isPrivate, Functions) :: fs[i].name)
              == set x | x in PublicNames(fs)
    ensures format != Es || moduleType != Functions ==>
              forall i :: 0 <= i < |fs| ==> !ExportsFunction(format, fs[i].isPrivate, moduleType)
  {
    PublicNamesMeaning(fs);
  }

  // ---------------------------------------------------------------------
  // Computed properties

  const ComputePrefix: string := "__compute_"

  /** decorateProperty: the name of the function that computes a property. */
  function DecorateProperty(name: string): string
  {
    ComputePrefix + name
  }

  /** The property a decorated name computes, if it is one. */
  function PropertyOf(decorated: string): Option<string>
  {
    if |decorated| >= |ComputePrefix| && decorated[..|ComputePrefix|] == ComputePrefix
    then Some(decorated[|ComputePrefix|..])
    else None
  }

  /** Decorating can be undone, so two properties never share a compute
      function. */
  lemma DecorateRoundTrip(name: string, other: string)
    ensures PropertyOf(DecorateProperty(name)) == Some(name)
    ensures DecorateProperty(name) == DecorateProperty(other) ==> name == other
  {
    assert (ComputePrefix + name)[|ComputePrefix|..] == name;
    assert (ComputePrefix + other)[|ComputePrefix|..] == other;
  }
}
