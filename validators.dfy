/** The checks the compiler runs on names and on the arguments of `module()`:
    uniqueness of parameters, sections and plots, identifier arguments, the
    configuration object and the module type it selects.

    Each check keeps a plain object as a dictionary of the names seen so far
    and asks `name in dictionary`.  Here the dictionary is the set of names
    seen; `AreUniqueAsWritten` shows what the host's `in` does instead. */
module Validators {
  import opened Errors
  import opened Syntax
  import opened Text
  import opened Sections
  import opened Structure

  // ---------------------------------------------------------------------
  // Duplicates

  /** A duplicate stays a duplicate in every longer list. */
  lemma DuplicateFound(items: seq<string>, i: nat)
    requires i < |items| && items[i] in items[..i]
    ensures !NoDuplicates(items)
  {
    var j :| 0 <= j < i && items[..i][j] == items[i];
    assert items[j] == items[i];
  }

  /** One more distinct element keeps a list free of duplicates. */
  lemma DistinctAppended(s: seq<string>, x: string)
    requires NoDuplicates(s) && x !in s
    ensures NoDuplicates(s + [x])
  {
    assert forall i :: 0 <= i < |s| ==> (s + [x])[i] == s[i];
  }

  /** areUnique: false as soon as an item was seen before. */
  method AreUnique(items: seq<string>) returns (unique: bool)
    ensures unique <==> NoDuplicates(items)
  {
    var values: set<string> := {};
    for i := 0 to |items|
      invariant values == set x | x in items[..i]
      invariant NoDuplicates(items[..i])
    {
      if items[i] in values {
        DuplicateFound(items, i);
        return false;
      }
      assert items[..i + 1] == items[..i] + [items[i]];
      DistinctAppended(items[..i], items[i]);
      values := values + {items[i]};
    }
    assert items[..|items|] == items;
    return true;
  }

  /** The keys every plain object has before anything is stored in it:
      those of `Object.prototype`. */
  const ObjectPrototypeKeys: set<string> :=
    {"constructor", "hasOwnProperty", "isPrototypeOf", "propertyIsEnumerable",
     "toLocaleString", "toString", "valueOf", "__proto__",
     "__defineGetter__", "__defineSetter__", "__lookupGetter__", "__lookupSetter__"}

  /** areUnique as written: `item in values` also holds for the keys the
      dictionary inherits. */
  function AreUniqueAsWritten(items: seq<string>, seen: set<string>): bool
    decreases |items|
  {
    if items == [] then true
    else if items[0] in seen || items[0] in ObjectPrototypeKeys then false
    else AreUniqueAsWritten(items[1..], seen + {items[0]})
  }

  /** A single parameter named `toString` or `constructor` is reported as a
      duplicate by the code as written, though the list has no duplicate. */
  lemma PrototypeNameReportedAsDuplicate()
    ensures NoDuplicates(["toString"]) && !AreUniqueAsWritten(["toString"], {})
    ensures NoDuplicates(["constructor"]) && !AreUniqueAsWritten(["constructor"], {})
  {
  }

  /** Apart from the inherited keys, the code as written agrees with the
      corrected check. */
  lemma {:induction false} AsWrittenAgreesOffPrototype(items: seq<string>, seen: set<string>)
    requires forall i :: 0 <= i < |items| ==> items[i] !in ObjectPrototypeKeys
    requires forall i :: 0 <= i < |items| ==> items[i] !in seen
    ensures AreUniqueAsWritten(items, seen) <==> NoDuplicates(items)
    decreases |items|
  {
    if items != [] {
      var rest := items[1..];
      assert forall i :: 0 <= i < |rest| ==> rest[i] == items[i + 1];
      if items[0] in rest {
        var j :| 0 <= j < |rest| && rest[j] == items[0];
        assert items[j + 1] == items[0];
        SeenStops(rest, seen + {items[0]}, j);
      } else {
        AsWrittenAgreesOffPrototype(rest, seen + {items[0]});
        if NoDuplicates(rest) {
          assert NoDuplicates(items) by {
            forall i, j | 0 <= i < j < |items|
              ensures items[i] != items[j]
            {
              if i > 0 {
                assert items[i] == rest[i - 1] && items[j] == rest[j - 1];
              } else {
                assert items[j] == rest[j - 1];
              }
            }
          }
        }
      }
    }
  }

  lemma {:induction false} SeenStops(items: seq<string>, seen: set<string>, j: nat)
    requires j < |items| && items[j] in seen
    ensures !AreUniqueAsWritten(items, seen)
    decreases j
  {
    if j > 0 && items[0] !in seen && items[0] !in ObjectPrototypeKeys {
      assert items[1..][j - 1] == items[j];
      SeenStops(items[1..], seen + {items[0]}, j - 1);
    }
  }

  // ---------------------------------------------------------------------
  // Sections and plots

  function SectionNames(sections: seq<Section>): (names: seq<string>)
    ensures |names| == |sections|
    ensures forall i :: 0 <= i < |sections| ==> names[i] == sections[i].name
  {
    seq(|sections|, i requires 0 <= i < |sections| => sections[i].name)
  }

  function PlotNames(plots: seq<Plot>): (names: seq<string>)
    ensures |names| == |plots|
    ensures forall i :: 0 <= i < |plots| ==> names[i] == plots[i].name
  {
    seq(|plots|, i requires 0 <= i < |plots| => plots[i].name)
  }

  /** The names of all plots of all sections, section by section. */
  function AllPlotNames(sections: seq<Section>): seq<string>
  {
    if sections == [] then []
    else AllPlotNames(sections[..|sections| - 1]) + PlotNames(sections[|sections| - 1].plots)
  }

  /** ensureUniqueSections: SON0020 when two sections share a name. */
  method EnsureUniqueSections(sections: seq<Section>) returns (err: Option<Error>)
    ensures err.None? <==> NoDuplicates(SectionNames(sections))
    ensures err.Some? ==> err.value == Coded(SON0020)
  {
    var names := SectionNames(sections);
    var values: set<string> := {};
    for i := 0 to |sections|
      invariant values == set x | x in names[..i]
      invariant NoDuplicates(names[..i])
    {
      if sections[i].name in values {
        DuplicateFound(names, i);
        return Some(Coded(SON0020));
      }
      assert names[..i + 1] == names[..i] + [names[i]];
      DistinctAppended(names[..i], names[i]);
      values := values + {sections[i].name};
    }
    assert names[..|sections|] == names;
    return None;
  }

  /** ensureUniquePlots: SON0021 when two plots share a name, in the same
      section or in different sections of one function. */
  method EnsureUniquePlots(sections: seq<Section>) returns (err: Option<Error>)
    ensures err.None? <==> NoDuplicates(AllPlotNames(sections))
    ensures err.Some? ==> err.value == Coded(SON0021)
  {
    var values: set<string> := {};
    ghost var seen: seq<string> := [];
    for i := 0 to |sections|
      invariant seen == AllPlotNames(sections[..i])
      invariant values == set x | x in seen
      invariant NoDuplicates(seen)
    {
      assert sections[..i + 1][..i] == sections[..i];
      ghost var before := seen;
      var plots := sections[i].plots;
      var names := PlotNames(plots);
      for j := 0 to |plots|
        invariant seen == before + names[..j]
        invariant values == set x | x in seen
        invariant NoDuplicates(seen)
      {
        if plots[j].name in values {
          var all := before + names;
          assert all[..|before| + j] == seen && all[|before| + j] == plots[j].name;
          DuplicateFound(all, |before| + j);
          DuplicatesPersist(sections, i, all);
          return Some(Coded(SON0021));
        }
        assert names[..j + 1] == names[..j] + [names[j]];
        DistinctAppended(seen, names[j]);
        seen := seen + [names[j]];
        values := values + {plots[j].name};
      }
      assert names[..|plots|] == names;
    }
    assert sections[..|sections|] == sections;
    return None;
  }

  /** ensureUniqueSections and ensureUniquePlots as written test `name in
      values` on a plain object as well, so a lone section named
      "constructor", or a lone plot named "toString", is rejected although no
      name repeats; the corrected checks accept both. */
  lemma PrototypeSectionAndPlotNamesRejectedAsWritten()
    ensures var ss := [Section("constructor", 1, [], [])];
            NoDuplicates(SectionNames(ss)) && !AreUniqueAsWritten(SectionNames(ss), {})
    ensures var ps := [Section("#1", 1, [], [Plot("toString", [])])];
            NoDuplicates(AllPlotNames(ps)) && !AreUniqueAsWritten(AllPlotNames(ps), {})
  {
    var ss := [Section("constructor", 1, [], [])];
    assert SectionNames(ss) == ["constructor"];
    var ps := [Section("#1", 1, [], [Plot("toString", [])])];
    assert PlotNames(ps[0].plots) == ["toString"];
    assert AllPlotNames(ps) == AllPlotNames([]) + ["toString"];
  }

  /** The plot names of the first sections, and then of one more section,
      are a prefix of the plot names of all sections. */
  lemma {:induction false} DuplicatesPersist(sections: seq<Section>, i: nat, prefix: seq<string>)
    requires i < |sections| && prefix == AllPlotNames(sections[..i]) + PlotNames(sections[i].plots)
    requires !NoDuplicates(prefix)
    ensures !NoDuplicates(AllPlotNames(sections))
    decreases |sections| - i
  {
    assert sections[..i + 1][..i] == sections[..i];
    assert prefix == AllPlotNames(sections[..i + 1]);
    if i + 1 == |sections| {
      assert sections[..i + 1] == sections;
    } else {
      var longer := AllPlotNames(sections[..i + 1]) + PlotNames(sections[i + 1].plots);
      assert longer[..|prefix|] == prefix;
      PrefixDuplicates(longer, |prefix|);
      DuplicatesPersist(sections, i + 1, longer);
    }
  }

  lemma PrefixDuplicates(s: seq<string>, n: nat)
    requires n <= |s| && !NoDuplicates(s[..n])
    ensures !NoDuplicates(s)
  {
    var i, j :| 0 <= i < j < n && s[..n][i] == s[..n][j];
    assert s[i] == s[j];
  }

  // ---------------------------------------------------------------------
  // Arguments

  /** ensureIdentifier: the name of an identifier; SON0011 for anything
      else. */
  function EnsureIdentifier(n: Node): (r: Result<string>)
    ensures r.Ok? <==> n.Identifier?
    ensures r.Ok? ==> r.value == n.name
    ensures r.Fail? ==> r.error == Coded(SON0011)
  {
    if n.Identifier? then Ok(n.name) else Fail(Coded(SON0011))
  }

  /** The parameter names of `args`, each checked by ensureIdentifier in
      turn; the first argument that is not an identifier fails. */
  function EnsureIdentifiers(args: seq<Node>): (r: Result<seq<string>>)
    ensures r.Ok? <==> forall i :: 0 <= i < |args| ==> args[i].Identifier?
    ensures r.Ok? ==> |r.value| == |args| && forall i :: 0 <= i < |args| ==> r.value[i] == args[i].name
    ensures r.Fail? ==> r.error == Coded(SON0011)
  {
    if args == [] then Ok([])
    else
      var first :- EnsureIdentifier(args[0]);
      var rest :- EnsureIdentifiers(args[1..]);
      assert forall i :: 1 <= i < |args| ==> args[i] == args[1..][i - 1];
      Ok([first] + rest)
  }

  // ---------------------------------------------------------------------
  // module(...) arguments

  /** The names and the configuration object read so far by extractConfig. */
  datatype Collected = Collected(names: seq<string>, config: Option<map<string, Value>>)

  /** What extractConfig has gathered after the arguments `input`: an
      identifier is appended to the names unless it was seen (SON0022), an
      object literal becomes the configuration unless there was one
      (SON0026), anything else is SON0011. */
  function CollectedBy(input: seq<Node>): Result<Collected>
  {
    if input == [] then Ok(Collected([], None))
    else
      var c :- CollectedBy(input[..|input| - 1]);
      Collect(c, input[|input| - 1])
  }

  /** One argument of `module()` added to what was collected before it. */
  function Collect(c: Collected, arg: Node): Result<Collected>
  {
    if arg.Identifier? then
      if arg.name in c.names then Fail(Coded(SON0022))
      else Ok(c.(names := c.names + [arg.name]))
    else if arg.ObjectExpr? then
      if c.config.Some? then Fail(Coded(SON0026))
      else
        var m :- StructureOf(arg);
        Ok(c.(config := m))
    else Fail(Coded(SON0011))
  }

  lemma CollectedNext(input: seq<Node>, i: nat, c: Collected)
    requires i < |input| && CollectedBy(input[..i]) == Ok(c)
    ensures CollectedBy(input[..i + 1]) == Collect(c, input[i])
  {
    assert input[..i + 1][..i] == input[..i];
  }

  datatype ModuleArguments = ModuleArguments(names: seq<string>, config: map<string, Value>)

  /** The result of extractConfig: the names, and the configuration or the
      empty one. */
  function ExtractConfigSpec(input: seq<Node>): Result<ModuleArguments>
  {
    var c :- CollectedBy(input);
    Ok(ModuleArguments(c.names, if c.config.Some? then c.config.value else map[]))
  }

  /** extractConfig */
  method ExtractConfig(input: seq<Node>) returns (r: Result<ModuleArguments>)
    ensures r == ExtractConfigSpec(input)
  {
    var configuration: Option<map<string, Value>> := None;
    var names: set<string> := {};
    var output: seq<string> := [];
    for i := 0 to |input|
      invariant CollectedBy(input[..i]) == Ok(Collected(output, configuration))
      invariant names == set x | x in output
    {
      var arg := input[i];
      CollectedNext(input, i, Collected(output, configuration));
      if arg.Identifier? {
        if arg.name in names {
          CollectedFails(input, i + 1);
          return Fail(Coded(SON0022));
        }
        names := names + {arg.name};
        output := output + [arg.name];
      } else if arg.ObjectExpr? {
        if configuration.Some? {
          CollectedFails(input, i + 1);
          return Fail(Coded(SON0026));
        }
        var parsed := ParseStructure(arg);
        if parsed.Fail? {
          CollectedFails(input, i + 1);
          return Fail(parsed.error);
        }
        configuration := parsed.value;
      } else {
        CollectedFails(input, i + 1);
        return Fail(Coded(SON0011));
      }
    }
    assert input[..|input|] == input;
    r := Ok(ModuleArguments(output, if configuration.Some? then configuration.value else map[]));
  }

  /** The first argument that fails decides the error. */
  lemma {:induction false} CollectedFails(input: seq<Node>, i: nat)
    requires i <= |input| && CollectedBy(input[..i]).Fail?
    ensures CollectedBy(input) == CollectedBy(input[..i])
    decreases |input| - i
  {
    if i < |input| {
      var k := |input| - 1;
      assert input[..k][..i] == input[..i];
      CollectedFails(input[..k], i);
    } else {
      assert input[..i] == input;
    }
  }

  /** The identifiers among the arguments, in order. */
  function IdentifierNames(input: seq<Node>): seq<string>
  {
    if input == [] then []
    else
      var arg := input[|input| - 1];
      IdentifierNames(input[..|input| - 1]) + (if arg.Identifier? then [arg.name] else [])
  }

  /** How many arguments are object literals. */
  function ObjectCount(input: seq<Node>): nat
  {
    if input == [] then 0
    else ObjectCount(input[..|input| - 1]) + (if input[|input| - 1].ObjectExpr? then 1 else 0)
  }

  /** Every argument is an identifier or a parsable object literal, no
      identifier repeats and there is at most one object literal. */
  predicate Acceptable(input: seq<Node>)
  {
    && (forall i :: 0 <= i < |input| ==>
          input[i].Identifier? || (input[i].ObjectExpr? && Parsable(input[i])))
    && NoDuplicates(IdentifierNames(input))
    && ObjectCount(input) <= 1
  }

  /** Acceptable arguments, one at a time. */
  lemma AcceptableStep(input: seq<Node>)
    requires input != []
    ensures var init, arg := input[..|input| - 1], input[|input| - 1];
            Acceptable(input) <==>
              && Acceptable(init)
              && ((arg.Identifier? && arg.name !in IdentifierNames(init)) ||
                  (arg.ObjectExpr? && Parsable(arg) && ObjectCount(init) == 0))
  {
    var k := |input| - 1;
    var init, arg := input[..k], input[k];
    assert forall i :: 0 <= i < k ==> init[i] == input[i];
    NamesPrefixDuplicates(init, arg);
    assert init + [arg] == input;
    if arg.Identifier? && NoDuplicates(IdentifierNames(init)) {
      assert IdentifierNames(input) == IdentifierNames(init) + [arg.name];
      if arg.name in IdentifierNames(init) {
        var j :| 0 <= j < |IdentifierNames(init)| && IdentifierNames(init)[j] == arg.name;
        assert IdentifierNames(input)[j] == IdentifierNames(input)[|IdentifierNames(init)|];
      } else {
        DistinctAppended(IdentifierNames(init), arg.name);
      }
    }
  }

  /** extractConfig succeeds exactly when the arguments are acceptable;
      the names are then the identifiers in order, and there is a
      configuration exactly when there is an object literal. */
  lemma {:induction false} ExtractConfigSucceeds(input: seq<Node>)
    ensures CollectedBy(input).Ok? <==> Acceptable(input)
    ensures CollectedBy(input).Ok? ==>
              CollectedBy(input).value.names == IdentifierNames(input) &&
              (CollectedBy(input).value.config.Some? <==> ObjectCount(input) == 1)
  {
    if input != [] {
      var k := |input| - 1;
      var init, arg := input[..k], input[k];
      ExtractConfigSucceeds(init);
      AcceptableStep(input);
      if arg.ObjectExpr? {
        ParseSucceeds(arg);
      }
    }
  }

  lemma NamesPrefixDuplicates(init: seq<Node>, arg: Node)
    ensures !NoDuplicates(IdentifierNames(init)) ==> !NoDuplicates(IdentifierNames(init + [arg]))
  {
    var whole := init + [arg];
    assert whole[..|whole| - 1] == init;
    var a := IdentifierNames(init);
    if !NoDuplicates(a) {
      var i, j :| 0 <= i < j < |a| && a[i] == a[j];
      assert IdentifierNames(whole)[i] == a[i] && IdentifierNames(whole)[j] == a[j];
    }
  }

  /** The configuration is the structure of the one object literal among
      the arguments, and `{}` when there is none. */
  lemma {:induction false} ConfigIsTheObject(input: seq<Node>, i: nat)
    requires i < |input| && input[i].ObjectExpr? && CollectedBy(input).Ok?
    ensures StructureOf(input[i]).Ok? && CollectedBy(input).value.config == StructureOf(input[i]).value
  {
    var k := |input| - 1;
    var init, arg := input[..k], input[k];
    assert CollectedBy(init).Ok?;
    ExtractConfigSucceeds(input);
    if i < k {
      assert init[i] == input[i];
      ConfigIsTheObject(init, i);
      ObjectCounted(init, i);
      ExtractConfigSucceeds(init);
      assert !arg.ObjectExpr?;
    } else {
      ConfigAbsent(init);
    }
  }

  lemma {:induction false} ObjectCounted(input: seq<Node>, i: nat)
    requires i < |input| && input[i].ObjectExpr?
    ensures ObjectCount(input) >= 1
  {
    var k := |input| - 1;
    if i < k {
      assert input[..k][i] == input[i];
      ObjectCounted(input[..k], i);
    }
  }

  lemma ConfigAbsent(input: seq<Node>)
    requires CollectedBy(input).Ok? && ObjectCount(input) == 0
    ensures CollectedBy(input).value.config.None?
  {
    ExtractConfigSucceeds(input);
  }

  /** Without an object literal the configuration is `{}`. */
  lemma NoObjectNoConfig(input: seq<Node>)
    requires ExtractConfigSpec(input).Ok? && forall i :: 0 <= i < |input| ==> !input[i].ObjectExpr?
    ensures ExtractConfigSpec(input).value.config == map[]
  {
    if ObjectCount(input) > 0 {
      var i := SomeObject(input);
    }
    ConfigAbsent(input);
  }

  lemma {:induction false} SomeObject(input: seq<Node>) returns (i: nat)
    requires ObjectCount(input) > 0
    ensures i < |input| && input[i].ObjectExpr?
  {
    var k := |input| - 1;
    if input[k].ObjectExpr? {
      i := k;
    } else {
      i := SomeObject(input[..k]);
      assert input[..k][i] == input[i];
    }
  }

  // ---------------------------------------------------------------------
  // The module type

  datatype ModuleType = Functions | ObjectModule

  /** Whether a value counts as false in a condition: an empty string, zero,
      false or null (objects are always true). */
  predicate Falsy(v: Value)
  {
    v.Scalar? && match v.literal
      case Str(s) => s == ""
      case Num(n) => n == 0
      case Bool(b) => !b
      case Null => true
  }

  /** checkConfig: `config.type || "functions"`, which must then be
      "functions" or "object"; SON0025 otherwise. */
  function CheckConfig(config: map<string, Value>): (r: Result<ModuleType>)
  {
    if "type" !in config || Falsy(config["type"]) then Ok(Functions)
    else if config["type"] == Scalar(Str("functions")) then Ok(Functions)
    else if config["type"] == Scalar(Str("object")) then Ok(ObjectModule)
    else Fail(Coded(SON0025))
  }

  /** The module type is "object" only when asked for by name; a missing or
      false-like type selects "functions"; every other value is rejected. */
  lemma CheckConfigMeaning(config: map<string, Value>)
    ensures CheckConfig(config) == Ok(ObjectModule) <==> "type" in config && config["type"] == Scalar(Str("object"))
    ensures "type" !in config ==> CheckConfig(config) == Ok(Functions)
    ensures CheckConfig(config).Fail? <==>
              "type" in config && !Falsy(config["type"]) &&
              config["type"] != Scalar(Str("functions")) && config["type"] != Scalar(Str("object"))
    ensures CheckConfig(config).Fail? ==> CheckConfig(config).error == Coded(SON0025)
  {
  }
}
