/** The small tree builders of the scope pass's module: the reading of a
    configuration object literal into a plain structure (parseStructure),
    the object literal a module returns (createReturnObject), and the
    function and return statements the compiler emits. */
module Structure {
  import opened Errors
  import opened Syntax
  import opened Text
  import opened Scope

  /** What parseStructure gives for a property value: the value of a
      literal, or a nested structure. */
  datatype Value = Scalar(literal: Literal) | Struct(entries: map<string, Value>)

  /** The text a literal key becomes when it is used as a dictionary key. */
  function KeyText(l: Literal): string
  {
    match l
    case Str(s) => s
    case Num(n) => if n >= 0 then NatToString(n) else "-" + NatToString(-n)
    case Bool(b) => if b then "true" else "false"
    case Null => "null"
  }

  /** getPropertyKey: the name of an identifier key or the text of a
      literal key; any other key kind is SON0024. */
  function GetPropertyKey(p: Node): (r: Result<string>)
    ensures r.Ok? <==> p.Property? && (p.key.Identifier? || p.key.Lit?)
    ensures r.Ok? && p.key.Identifier? ==> r.value == p.key.name
    ensures r.Fail? ==> r.error == (if p.Property? then Coded(SON0024) else MalformedProperty)
  {
    if !p.Property? then Fail(MalformedProperty)
    else if p.key.Identifier? then Ok(p.key.name)
    else if p.key.Lit? then Ok(KeyText(p.key.literal))
    else Fail(Coded(SON0024))
  }

  /** The structure an object literal denotes, property by property; `None`
      for any other node. */
  function StructureOf(n: Node): Result<Option<map<string, Value>>>
    decreases Size(n), 2
  {
    if !n.ObjectExpr? then Ok(None)
    else
      var m :- EntriesOf(n.properties);
      Ok(Some(m))
  }

  /** The dictionary the loop of parseStructure has filled after the
      properties `ps`: each key is read before its value, and a later key
      overwrites an earlier one. */
  function EntriesOf(ps: seq<Node>): Result<map<string, Value>>
    decreases SizeList(ps), 1
  {
    if ps == [] then Ok(map[])
    else
      var k := |ps| - 1;
      PrefixSmaller(ps);
      var m :- EntriesOf(ps[..k]);
      var key :- GetPropertyKey(ps[k]);
      var value :- ValueOf(ps[k]);
      Ok(m[key := value])
  }

  /** getPropertyValue: a literal's value, or the structure of a nested
      object literal; any other value kind is SON0025. */
  function ValueOf(p: Node): Result<Value>
    requires p.Property?
    decreases Size(p), 0
  {
    if p.value.Lit? then Ok(Scalar(p.value.literal))
    else if p.value.ObjectExpr? then
      assert SizeList(p.value.properties) < Size(p.value) < Size(p);
      var m :- EntriesOf(p.value.properties);
      Ok(Struct(m))
    else Fail(Coded(SON0025))
  }

  lemma PrefixSmaller(ps: seq<Node>)
    requires ps != []
    ensures SizeList(ps[..|ps| - 1]) < SizeList(ps)
    ensures Size(ps[|ps| - 1]) <= SizeList(ps)
  {
    var k := |ps| - 1;
    assert ps == ps[..k] + [ps[k]];
    SizeListAppend(ps[..k], [ps[k]]);
    SizeListSingle(ps[k]);
  }

  // ---------------------------------------------------------------------
  // The loop

  /** parseStructure */
  method ParseStructure(n: Node) returns (r: Result<Option<map<string, Value>>>)
    ensures r == StructureOf(n)
    decreases Size(n), 1
  {
    if !n.ObjectExpr? {
      return Ok(None);
    }
    var ps := n.properties;
    ElementsSmaller(ps);
    var result := map[];
    var i := 0;
    while i < |ps|
      invariant 0 <= i <= |ps|
      invariant EntriesOf(ps[..i]) == Ok(result)
    {
      var p := ps[i];
      var key := GetPropertyKey(p);
      if key.Fail? {
        PropertyFails(ps, i);
        return Fail(key.error);
      }
      var value := PropertyValue(p);
      if value.Fail? {
        PropertyFails(ps, i);
        return Fail(value.error);
      }
      EntriesExtend(ps, i);
      result := result[key.value := value.value];
      i := i + 1;
    }
    assert ps[..i] == ps;
    r := Ok(Some(result));
  }

  /** One more turn of the loop of parseStructure. */
  lemma EntriesExtend(ps: seq<Node>, i: nat)
    requires i < |ps| && EntriesOf(ps[..i]).Ok?
    requires ps[i].Property? && GetPropertyKey(ps[i]).Ok? && ValueOf(ps[i]).Ok?
    ensures EntriesOf(ps[..i + 1]) ==
              Ok(EntriesOf(ps[..i]).value[GetPropertyKey(ps[i]).value := ValueOf(ps[i]).value])
  {
    assert ps[..i + 1][..i] == ps[..i] && ps[..i + 1][i] == ps[i];
  }

  /** The first property whose key or value cannot be read ends the loop
      with its error. */
  lemma PropertyFails(ps: seq<Node>, i: nat)
    requires i < |ps| && EntriesOf(ps[..i]).Ok?
    requires GetPropertyKey(ps[i]).Fail? || (ps[i].Property? && ValueOf(ps[i]).Fail?)
    ensures GetPropertyKey(ps[i]).Fail? ==> EntriesOf(ps) == Fail(GetPropertyKey(ps[i]).error)
    ensures GetPropertyKey(ps[i]).Ok? ==> EntriesOf(ps) == Fail(ValueOf(ps[i]).error)
  {
    assert ps[..i + 1][..i] == ps[..i] && ps[..i + 1][i] == ps[i];
    FailedPrefixDecides(ps, i + 1);
  }

  /** getPropertyValue, reading a nested object literal with parseStructure. */
  method PropertyValue(p: Node) returns (r: Result<Value>)
    requires p.Property?
    ensures r == ValueOf(p)
    decreases Size(p), 0
  {
    if p.value.Lit? {
      return Ok(Scalar(p.value.literal));
    } else if p.value.ObjectExpr? {
      var m := ParseStructure(p.value);
      if m.Fail? {
        return Fail(m.error);
      }
      return Ok(Struct(m.value.value));
    }
    return Fail(Coded(SON0025));
  }

  /** Once a prefix of the properties fails, the whole list fails with the
      same error: the loop stops at the first bad property. */
  lemma {:induction false} FailedPrefixDecides(ps: seq<Node>, i: nat)
    requires i <= |ps| && EntriesOf(ps[..i]).Fail?
    ensures EntriesOf(ps) == EntriesOf(ps[..i])
    decreases |ps| - i
  {
    if i < |ps| {
      var k := |ps| - 1;
      assert ps[..k][..i] == ps[..i];
      FailedPrefixDecides(ps[..k], i);
    } else {
      assert ps[..i] == ps;
    }
  }

  // ---------------------------------------------------------------------
  // What the structure holds

  /** The object literals parseStructure accepts: every entry is a property
      whose key is an identifier or a literal and whose value is a literal
      or, recursively, such an object literal. */
  predicate Parsable(n: Node)
    requires n.ObjectExpr?
    decreases Size(n), 1
  {
    ElementsSmaller(n.properties);
    forall i :: 0 <= i < |n.properties| ==> ParsableProperty(n.properties[i])
  }

  predicate ParsableProperty(p: Node)
    decreases Size(p), 0
  {
    && p.Property?
    && (p.key.Identifier? || p.key.Lit?)
    && (p.value.Lit? || (p.value.ObjectExpr? && Parsable(p.value)))
  }

  /** A node that is not an object literal gives `undefined`; an object
      literal gives a structure exactly when every property in it, at every
      depth, is parsable. */
  lemma ParseSucceeds(n: Node)
    ensures !n.ObjectExpr? ==> StructureOf(n) == Ok(None)
    ensures n.ObjectExpr? ==> (StructureOf(n).Ok? <==> Parsable(n))
    ensures StructureOf(n).Ok? && n.ObjectExpr? ==> StructureOf(n).value.Some?
    decreases Size(n), 1
  {
    if n.ObjectExpr? {
      ElementsSmaller(n.properties);
      EntriesSucceed(n.properties, |n.properties|);
      assert n.properties[..|n.properties|] == n.properties;
    }
  }

  lemma {:induction false} EntriesSucceed(ps: seq<Node>, i: nat)
    requires i <= |ps|
    ensures EntriesOf(ps[..i]).Ok? <==> forall j :: 0 <= j < i ==> ParsableProperty(ps[j])
    decreases SizeList(ps), 2, i
  {
    if i > 0 {
      var q := ps[..i];
      assert q[..i - 1] == ps[..i - 1] && q[i - 1] == ps[i - 1];
      EntriesSucceed(ps, i - 1);
      ElementsSmaller(ps);
      PropertySucceeds(ps[i - 1]);
    }
  }

  lemma PropertySucceeds(p: Node)
    ensures (GetPropertyKey(p).Ok? && p.Property? && ValueOf(p).Ok?) <==> ParsableProperty(p)
    decreases Size(p), 1
  {
    if p.Property? && p.value.ObjectExpr? {
      ParseSucceeds(p.value);
    }
  }

  /** One more property: the dictionary so far with its key set to its
      value. */
  lemma EntriesStep(ps: seq<Node>)
    requires ps != [] && EntriesOf(ps).Ok?
    ensures var k := |ps| - 1;
            && EntriesOf(ps[..k]).Ok? && ps[k].Property?
            && GetPropertyKey(ps[k]).Ok? && ValueOf(ps[k]).Ok?
            && EntriesOf(ps).value == EntriesOf(ps[..k]).value[GetPropertyKey(ps[k]).value := ValueOf(ps[k]).value]
  {
  }

  /** The keys of the structure are exactly the keys of its properties. */
  lemma EntriesKeys(ps: seq<Node>)
    requires EntriesOf(ps).Ok?
    ensures forall x :: x in EntriesOf(ps).value <==> exists i :: 0 <= i < |ps| && GetPropertyKey(ps[i]) == Ok(x)
  {
    EveryKeyEntered(ps);
    OnlyKeysEntered(ps);
  }

  lemma {:induction false} EveryKeyEntered(ps: seq<Node>)
    requires EntriesOf(ps).Ok?
    ensures forall i :: 0 <= i < |ps| ==> GetPropertyKey(ps[i]).Ok? && GetPropertyKey(ps[i]).value in EntriesOf(ps).value
  {
    if ps != [] {
      var k := |ps| - 1;
      var init := ps[..k];
      EntriesStep(ps);
      EveryKeyEntered(init);
      assert forall i :: 0 <= i < k ==> init[i] == ps[i];
    }
  }

  lemma {:induction false} OnlyKeysEntered(ps: seq<Node>)
    requires EntriesOf(ps).Ok?
    ensures forall x :: x in EntriesOf(ps).value ==> exists i :: 0 <= i < |ps| && GetPropertyKey(ps[i]) == Ok(x)
  {
    if ps != [] {
      var k := |ps| - 1;
      var init := ps[..k];
      EntriesStep(ps);
      OnlyKeysEntered(init);
      forall x | x in EntriesOf(ps).value
        ensures exists i :: 0 <= i < |ps| && GetPropertyKey(ps[i]) == Ok(x)
      {
        if GetPropertyKey(ps[k]) != Ok(x) {
          var i :| 0 <= i < k && GetPropertyKey(init[i]) == Ok(x);
          assert init[i] == ps[i];
        }
      }
    }
  }

  /** A property that no later property overrides decides the value of its
      key: later keys overwrite earlier ones. */
  lemma {:induction false} LastKeyWins(ps: seq<Node>)
    requires EntriesOf(ps).Ok?
    ensures forall i :: 0 <= i < |ps| && LastWithKey(ps, i) ==>
              ps[i].Property? && GetPropertyKey(ps[i]).Ok? && ValueOf(ps[i]).Ok? &&
              GetPropertyKey(ps[i]).value in EntriesOf(ps).value &&
              EntriesOf(ps).value[GetPropertyKey(ps[i]).value] == ValueOf(ps[i]).value
  {
    if ps != [] {
      var k := |ps| - 1;
      var init := ps[..k];
      EntriesStep(ps);
      LastKeyWins(init);
      forall i | 0 <= i < |ps| && LastWithKey(ps, i)
        ensures ps[i].Property? && GetPropertyKey(ps[i]).Ok? && ValueOf(ps[i]).Ok? &&
                GetPropertyKey(ps[i]).value in EntriesOf(ps).value &&
                EntriesOf(ps).value[GetPropertyKey(ps[i]).value] == ValueOf(ps[i]).value
      {
        if i < k {
          assert init[i] == ps[i];
          assert LastWithKey(init, i) by {
            forall j | i < j < k
              ensures GetPropertyKey(init[j]) != GetPropertyKey(init[i])
            {
              assert init[j] == ps[j];
            }
          }
          assert GetPropertyKey(ps[k]) != GetPropertyKey(ps[i]);
        }
      }
    }
  }

  /** No later property of `ps` has the key of property `i`. */
  predicate LastWithKey(ps: seq<Node>, i: int)
    requires 0 <= i < |ps|
  {
    forall j :: i < j < |ps| ==> GetPropertyKey(ps[j]) != GetPropertyKey(ps[i])
  }

  // ---------------------------------------------------------------------
  // Emitted nodes

  /** createReturnObject: the names sorted (the host's default string
      order), and one shorthand-free `name: name` property per name. */
  method CreateReturnObject(items: seq<string>) returns (r: Node)
    ensures r.ObjectExpr? && |r.properties| == |items|
    ensures forall i :: 0 <= i < |items| ==>
              r.properties[i] == Property(MakeId(Sort(items)[i]), MakeId(Sort(items)[i]))
  {
    var sorted := Sort(items);
    var properties := [];
    for i := 0 to |sorted|
      invariant |properties| == i
      invariant forall j :: 0 <= j < i ==> properties[j] == Property(MakeId(sorted[j]), MakeId(sorted[j]))
    {
      properties := properties + [Property(MakeId(sorted[i]), MakeId(sorted[i]))];
    }
    r := ObjectExpr(properties);
  }

  /** The names an object literal of `name: name` properties exports. */
  function ExportedNames(r: Node): seq<string>
    requires r.ObjectExpr?
  {
    seq(|r.properties|, i requires 0 <= i < |r.properties| =>
      var p := r.properties[i];
      if p.Property? && p.key.Identifier? then p.key.name else "")
  }

  /** The returned object exports every name, as often as it was given, in
      sorted order, each under its own name. */
  lemma ReturnObjectExports(items: seq<string>, r: Node)
    requires r.ObjectExpr? && |r.properties| == |items|
    requires forall i :: 0 <= i < |items| ==>
               r.properties[i] == Property(MakeId(Sort(items)[i]), MakeId(Sort(items)[i]))
    ensures SortedStrings(ExportedNames(r))
    ensures multiset(ExportedNames(r)) == multiset(items)
    ensures forall i :: 0 <= i < |r.properties| ==> r.properties[i].value == r.properties[i].key
    ensures forall i :: 0 <= i < |r.properties| ==>
              r.properties[i] == Property(MakeId(ExportedNames(r)[i]), MakeId(ExportedNames(r)[i]))
  {
    var s := Sort(items);
    NamesOfProperties(s, r);
  }

  lemma NamesOfProperties(s: seq<string>, r: Node)
    requires r.ObjectExpr? && |r.properties| == |s|
    requires forall i :: 0 <= i < |s| ==> r.properties[i] == Property(MakeId(s[i]), MakeId(s[i]))
    ensures ExportedNames(r) == s
  {
    var names := ExportedNames(r);
    forall i | 0 <= i < |s|
      ensures names[i] == s[i]
    {
      assert r.properties[i] == Property(Identifier(s[i]), Identifier(s[i]));
    }
  }

  /** makeFunction: a function declaration named `name` with identifier
      parameters. */
  function MakeFunction(name: string, params: seq<string>, body: seq<Node>): (r: Node)
    ensures r.Function? && r.kind == Declaration && !r.exprBody && r.body == body
  {
    Function(Declaration, [MakeId(name)], seq(|params|, i requires 0 <= i < |params| => MakeId(params[i])), body, false, {})
  }

  /** The name of a function node, when it has one. */
  function FunctionName(f: Node): Option<string>
    requires f.Function?
  {
    if |f.id| == 1 && f.id[0].Identifier? then Some(f.id[0].name) else None
  }

  /** The names of a function's parameters, when they are all identifiers. */
  function ParamNames(f: Node): Option<seq<string>>
    requires f.Function?
  {
    if forall i :: 0 <= i < |f.params| ==> f.params[i].Identifier?
    then Some(seq(|f.params|, i requires 0 <= i < |f.params| && f.params[i].Identifier? => f.params[i].name))
    else None
  }

  /** The name and parameters given to makeFunction are read back from the
      declaration it builds. */
  lemma MakeFunctionRoundTrip(name: string, params: seq<string>, body: seq<Node>)
    ensures FunctionName(MakeFunction(name, params, body)) == Some(name)
    ensures ParamNames(MakeFunction(name, params, body)) == Some(params)
  {
    var f := MakeFunction(name, params, body);
    assert forall i :: 0 <= i < |params| ==> f.params[i] == Identifier(params[i]);
    assert ParamNames(f).value == params;
  }

  /** makeReturn */
  function MakeReturn(argument: Node): (r: Node)
    ensures r.Terminal? && r.terminal == ReturnStmt && r.result == [argument]
  {
    Terminal(ReturnStmt, [argument])
  }
}
