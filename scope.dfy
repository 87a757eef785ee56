/** The scope pass over the statements of an algorithm.

    The pass copies the syntax tree while it threads a context through it:
    an assignment to a name that is neither declared nor a field declares
    that name implicitly (it is hoisted into one `var` at the top of the
    enclosing function), a reference to a field `x` becomes `self.x`,
    `await` marks the context, and `if`, `for` and `switch` statements are
    rejected: in this language conditions are written as scenarios.

    The context is threaded as a value: the pass returns the new tree
    together with the context it leaves behind. */
module Scope {
  import opened Errors
  import opened Syntax
  import opened Text
  import opened Declarations

  /** The context of one function: the names declared in it (parameters,
      `var`s, names of enclosing scopes), the fields of the enclosing
      object, the implicitly declared names in order of first assignment,
      and whether an `await` occurs. */
  datatype Context = Context(declarations: set<string>, fields: set<string>, variables: seq<string>, hasAwait: bool)

  datatype Processed = Processed(node: Node, ctx: Context)

  datatype ProcessedList = ProcessedList(nodes: seq<Node>, ctx: Context)

  /** Sets a key of a dictionary used as an ordered set: a new name goes to
      the end, a known one keeps its place. */
  function AddName(names: seq<string>, name: string): (r: seq<string>)
    ensures name in r
    ensures forall x :: x in r <==> x in names || x == name
  {
    if name in names then names else names + [name]
  }

  function AddNames(names: seq<string>, more: seq<string>): (r: seq<string>)
    ensures forall x :: x in r <==> x in names || x in more
    decreases |more|
  {
    if more == [] then names else AddNames(AddName(names, more[0]), more[1..])
  }

  lemma {:induction false} AddNamesAppend(names: seq<string>, a: seq<string>, b: seq<string>)
    ensures AddNames(names, a + b) == AddNames(AddNames(names, a), b)
    decreases |a|
  {
    if a == [] {
      assert a + b == b;
    } else {
      assert (a + b)[0] == a[0] && (a + b)[1..] == a[1..] + b;
      AddNamesAppend(AddName(names, a[0]), a[1..], b);
    }
  }

  /** addSelf: `self.<node>`. */
  function AddSelf(n: Node): Node
  {
    Member(Identifier("self"), n, false)
  }

  /** makeId */
  function MakeId(name: string): Node
  {
    Identifier(name)
  }

  /** cloneContextForFunction: the context of a nested function sees the
      enclosing declarations, the function's own `var`s and the names
      implicitly declared so far in the enclosing function; it has no
      implicit names of its own yet. */
  function EnterFunction(f: Node, ctx: Context): (inner: Context)
    requires f.Function?
    ensures inner.declarations == ctx.declarations + f.declarations + (set v | v in ctx.variables)
    ensures inner.fields == ctx.fields && inner.variables == [] && !inner.hasAwait
  {
    Context(ctx.declarations + f.declarations + (set v | v in ctx.variables), ctx.fields, [], false)
  }

  /** The statement list with the hoisted declaration `var v1, v2, ...` in
      front, or unchanged when there is nothing to hoist. */
  function WithVariables(body: seq<Node>, variables: seq<string>): seq<Node>
  {
    if variables == [] then body else [VarDecl(Declarators(variables))] + body
  }

  function Declarators(variables: seq<string>): (ds: seq<Node>)
    ensures |ds| == |variables|
    ensures forall i :: 0 <= i < |ds| ==> ds[i] == Declarator(MakeId(variables[i]), [])
  {
    seq(|variables|, i requires 0 <= i < |variables| => Declarator(MakeId(variables[i]), []))
  }

  /** The hoisted declaration names exactly the hoisted names, in order,
      and declares nothing else: what the body declared before, plus the
      hoisted names, is what it declares after. */
  lemma HoistedDeclares(body: seq<Node>, variables: seq<string>)
    ensures var r := WithVariables(body, variables);
            if variables == [] then r == body
            else |r| == |body| + 1 && r[1..] == body && r[0].VarDecl? &&
                 |r[0].declarators| == |variables| &&
                 (forall i :: 0 <= i < |variables| ==> DeclaredName(r[0].declarators[i]) == variables[i])
    ensures OwnVarsList(WithVariables(body, variables)) == OwnVarsList(body) + (set v | v in variables)
  {
    if variables != [] {
      var ds := Declarators(variables);
      var r := WithVariables(body, variables);
      assert r == [VarDecl(ds)] + body && r[0] == VarDecl(ds) && r[1..] == body;
      DeclarationDeclares(variables);
    }
  }

  /** The hoisted declaration `var v1, v2, ...` declares exactly its names. */
  lemma DeclarationDeclares(variables: seq<string>)
    ensures OwnVars(VarDecl(Declarators(variables))) == set v | v in variables
  {
    var ds := Declarators(variables);
    DeclaratorsDeclareNothing(ds);
    DeclaratorsNames(variables);
    assert Children(VarDecl(ds)) == ds;
    assert OwnVars(VarDecl(ds)) == DeclaredNames(ds) + OwnVarsList(ds);
  }

  lemma DeclaratorsNames(variables: seq<string>)
    ensures DeclaredNames(Declarators(variables)) == set v | v in variables
  {
    var ds := Declarators(variables);
    forall v | v in variables
      ensures v in DeclaredNames(ds)
    {
      var i :| 0 <= i < |variables| && variables[i] == v;
      assert DeclaredName(ds[i]) == v;
    }
  }

  lemma {:induction false} DeclaratorsDeclareNothing(ds: seq<Node>)
    requires forall i :: 0 <= i < |ds| ==> ds[i].Declarator? && ds[i].target.Identifier? && ds[i].init == []
    ensures OwnVarsList(ds) == {}
  {
    if ds != [] {
      var t := ds[0].target;
      assert Children(ds[0]) == [t] && [t][1..] == [];
      assert OwnVars(t) == {} by {
        assert Children(t) == [];
      }
      assert OwnVarsList([t]) == {};
      DeclaratorsDeclareNothing(ds[1..]);
    }
  }

  /** prependVariables: builds the declaration name by name and puts it at
      index 0 of the body. */
  method PrependVariables(body: seq<Node>, variables: seq<string>) returns (result: seq<Node>)
    ensures result == WithVariables(body, variables)
  {
    var declarations: seq<Node> := [];
    var i := 0;
    while i < |variables|
      invariant 0 <= i <= |variables|
      invariant declarations == Declarators(variables[..i])
    {
      declarations := declarations + [Declarator(MakeId(variables[i]), [])];
      i := i + 1;
    }
    assert variables[..i] == variables;
    result := body;
    if |declarations| > 0 {
      result := [VarDecl(declarations)] + body;
    }
  }

  // ---------------------------------------------------------------------
  // The pass

  /** The children the pass walks into, in the order it walks them: the
      property of a computed member expression is processed before its
      object, and the property of a plain `a.b` is not processed at all. */
  function Visited(n: Node): seq<Node>
  {
    if n.Member? then
      if n.computed then [n.property, n.base] else [n.base]
    else Children(n)
  }

  lemma VisitedSmaller(n: Node)
    ensures SizeList(Visited(n)) < Size(n)
  {
    ChildrenSmaller(n);
    if n.Member? {
      SizeListPair(n.base, n.property);
      SizeListPair(n.property, n.base);
      SizeListSingle(n.base);
    }
  }

  /** processAst: the copy of `n` under `ctx`, and the context after it. */
  function ProcessAst(n: Node, ctx: Context): (r: Result<Processed>)
    ensures r.Fail? ==> r.error.NotAllowed? || r.error == HoistIntoExpressionBody
    decreases Size(n), 1
  {
    if n.Function? then
      ChildrenSmaller(n);
      var inner :- ProcessList(Children(n), EnterFunction(n, ctx));
      var copy := Rebuild(n, inner.nodes);
      if inner.ctx.variables != [] && n.exprBody then Fail(HoistIntoExpressionBody)
      else
        var hoisted := WithVariables(copy.body, inner.ctx.variables);
        Ok(Processed(Function(copy.kind, copy.id, copy.params, hoisted, copy.exprBody, copy.declarations), ctx))
    else if n.Identifier? then
      Ok(Processed(if n.name in ctx.fields then AddSelf(n) else n, ctx))
    else if n.Member? then
      if n.computed then
        var p :- ProcessAst(n.property, ctx);
        var o :- ProcessAst(n.base, p.ctx);
        Ok(Processed(Member(o.node, p.node, true), o.ctx))
      else
        var o :- ProcessAst(n.base, ctx);
        Ok(Processed(Member(o.node, n.property, false), o.ctx))
    else if n.Await? then
      CloneAst(n, ctx.(hasAwait := true))
    else if n.Assignment? && n.left.Identifier? && n.left.name !in ctx.declarations && n.left.name !in ctx.fields then
      CloneAst(n, ctx.(variables := AddName(ctx.variables, n.left.name)))
    else if n.If? then Fail(NotAllowed(IfStatement))
    else if n.Loop? then Fail(NotAllowed(n.loop))
    else CloneAst(n, ctx)
  }

  /** cloneAst: the node with every child processed, in order. */
  function CloneAst(n: Node, ctx: Context): (r: Result<Processed>)
    ensures r.Fail? ==> r.error.NotAllowed? || r.error == HoistIntoExpressionBody
    decreases Size(n), 0
  {
    ChildrenSmaller(n);
    var inner :- ProcessList(Children(n), ctx);
    Ok(Processed(Rebuild(n, inner.nodes), inner.ctx))
  }

  /** The elements of a list processed one after another. */
  function ProcessList(ns: seq<Node>, ctx: Context): (r: Result<ProcessedList>)
    ensures r.Ok? ==> |r.value.nodes| == |ns|
    ensures r.Fail? ==> r.error.NotAllowed? || r.error == HoistIntoExpressionBody
    decreases SizeList(ns), 2
  {
    if ns == [] then Ok(ProcessedList([], ctx))
    else
      var first :- ProcessAst(ns[0], ctx);
      var rest :- ProcessList(ns[1..], first.ctx);
      Ok(ProcessedList([first.node] + rest.nodes, rest.ctx))
  }

  // ---------------------------------------------------------------------
  // What the pass does, stated without the context

  lemma VisitedElementsSmaller(n: Node)
    ensures forall i :: 0 <= i < |Visited(n)| ==> Size(Visited(n)[i]) < Size(n)
  {
    VisitedSmaller(n);
    ElementsSmaller(Visited(n));
  }

  /** An `if`, `for`, `for-in`, `for-of` or `switch` statement somewhere in
      the part of the tree the pass walks, nested functions included. */
  predicate Restricted(n: Node)
    decreases Size(n), 1
  {
    VisitedSmaller(n);
    n.If? || n.Loop? || AnyRestricted(Visited(n))
  }

  predicate AnyRestricted(ns: seq<Node>)
    decreases SizeList(ns), 2
  {
    ns != [] && (Restricted(ns[0]) || AnyRestricted(ns[1..]))
  }

  /** An `await` in `n` outside nested functions. */
  predicate Awaits(n: Node)
    decreases Size(n), 1
  {
    VisitedSmaller(n);
    !n.Function? && (n.Await? || AnyAwaits(Visited(n)))
  }

  predicate AnyAwaits(ns: seq<Node>)
    decreases SizeList(ns), 2
  {
    ns != [] && (Awaits(ns[0]) || AnyAwaits(ns[1..]))
  }

  /** The names assigned in `n` outside nested functions that are neither
      declared nor fields, in the order the pass meets the assignments. */
  function Free(n: Node, declarations: set<string>, fields: set<string>): (names: seq<string>)
    ensures forall x :: x in names ==> x !in declarations && x !in fields
    decreases Size(n), 1
  {
    VisitedSmaller(n);
    if n.Function? then []
    else
      var own := if n.Assignment? && n.left.Identifier? && n.left.name !in declarations && n.left.name !in fields
                 then [n.left.name] else [];
      own + FreeList(Visited(n), declarations, fields)
  }

  function FreeList(ns: seq<Node>, declarations: set<string>, fields: set<string>): (names: seq<string>)
    ensures forall x :: x in names ==> x !in declarations && x !in fields
    decreases SizeList(ns), 2
  {
    if ns == [] then [] else Free(ns[0], declarations, fields) + FreeList(ns[1..], declarations, fields)
  }

  lemma {:induction false} FreeListAppend(a: seq<Node>, b: seq<Node>, declarations: set<string>, fields: set<string>)
    ensures FreeList(a + b, declarations, fields) == FreeList(a, declarations, fields) + FreeList(b, declarations, fields)
  {
    if a == [] {
      assert a + b == b;
    } else {
      assert (a + b)[0] == a[0] && (a + b)[1..] == a[1..] + b;
      FreeListAppend(a[1..], b, declarations, fields);
    }
  }

  /** No field is referred to by its bare name in the part of the tree the
      pass walks. */
  predicate FieldFree(n: Node, fields: set<string>)
    decreases Size(n)
  {
    VisitedElementsSmaller(n);
    (n.Identifier? ==> n.name !in fields) &&
    forall i :: 0 <= i < |Visited(n)| ==> FieldFree(Visited(n)[i], fields)
  }

  /** The context after the pass over `n`: the names assigned freely in `n`
      are added in order, `hasAwait` is set when `n` awaits, and nothing
      else changes.  Nested functions leave the context untouched. */
  function After(n: Node, ctx: Context): Context
  {
    ctx.(variables := AddNames(ctx.variables, Free(n, ctx.declarations, ctx.fields)),
         hasAwait := ctx.hasAwait || Awaits(n))
  }

  function AfterList(ns: seq<Node>, ctx: Context): Context
  {
    ctx.(variables := AddNames(ctx.variables, FreeList(ns, ctx.declarations, ctx.fields)),
         hasAwait := ctx.hasAwait || AnyAwaits(ns))
  }

  lemma {:induction false} ProcessContext(n: Node, ctx: Context)
    requires ProcessAst(n, ctx).Ok?
    ensures ProcessAst(n, ctx).value.ctx == After(n, ctx)
    decreases Size(n), 2
  {
    VisitedSmaller(n);
    var d, f := ctx.declarations, ctx.fields;
    if n.Function? {
      assert ProcessAst(n, ctx).value.ctx == ctx;
    } else if n.Identifier? {
      assert Visited(n) == [];
      assert Free(n, d, f) == [];
      assert !Awaits(n);
    } else if n.Member? {
      if n.computed {
        ComputedMemberContext(n, ctx);
      } else {
        PlainMemberContext(n, ctx);
      }
    } else if n.Await? {
      CloneContext(n, ctx.(hasAwait := true));
      assert Free(n, d, f) == [] + FreeList(Children(n), d, f);
      assert [] + FreeList(Children(n), d, f) == FreeList(Children(n), d, f);
    } else if n.Assignment? && n.left.Identifier? && n.left.name !in d && n.left.name !in f {
      CloneContext(n, ctx.(variables := AddName(ctx.variables, n.left.name)));
      var rest := FreeList(Children(n), d, f);
      assert Free(n, d, f) == [n.left.name] + rest;
      assert ([n.left.name] + rest)[1..] == rest;
    } else if n.If? || n.Loop? {
    } else {
      assert ProcessAst(n, ctx) == CloneAst(n, ctx);
      var rest := FreeList(Children(n), d, f);
      assert Free(n, d, f) == [] + rest;
      assert [] + rest == rest;
      CloneContext(n, ctx);
    }
  }

  /** Walking a list is walking its head, then the rest. */
  lemma AfterCons(ns: seq<Node>, ctx: Context)
    requires ns != []
    ensures AfterList(ns, ctx) == AfterList(ns[1..], After(ns[0], ctx))
  {
    AddNamesAppend(ctx.variables, Free(ns[0], ctx.declarations, ctx.fields),
                   FreeList(ns[1..], ctx.declarations, ctx.fields));
  }

  /** A node that is neither a function nor an assignment to a free name
      changes the context only through the children the pass walks. */
  lemma AfterVisited(n: Node, ctx: Context)
    requires !n.Function? && !n.Await?
    requires !(n.Assignment? && n.left.Identifier? && n.left.name !in ctx.declarations && n.left.name !in ctx.fields)
    ensures After(n, ctx) == AfterList(Visited(n), ctx)
  {
    var rest := FreeList(Visited(n), ctx.declarations, ctx.fields);
    assert Free(n, ctx.declarations, ctx.fields) == [] + rest;
    assert [] + rest == rest;
    assert Awaits(n) == AnyAwaits(Visited(n));
  }

  lemma {:induction false} ComputedMemberContext(n: Node, ctx: Context)
    requires n.Member? && n.computed && ProcessAst(n, ctx).Ok?
    ensures ProcessAst(n, ctx).value.ctx == After(n, ctx)
    decreases Size(n), 1
  {
    VisitedSmaller(n);
    var base, property := n.base, n.property;
    var p := ProcessAst(property, ctx).value;
    assert ProcessAst(n, ctx).value.ctx == ProcessAst(base, p.ctx).value.ctx;
    ProcessContext(property, ctx);
    ProcessContext(base, p.ctx);
    AfterVisited(n, ctx);
    var vs := [property, base];
    assert Visited(n) == vs && vs[1..] == [base] && [base][1..] == [];
    AfterCons(vs, ctx);
    AfterCons([base], p.ctx);
  }

  lemma {:induction false} PlainMemberContext(n: Node, ctx: Context)
    requires n.Member? && !n.computed && ProcessAst(n, ctx).Ok?
    ensures ProcessAst(n, ctx).value.ctx == After(n, ctx)
    decreases Size(n), 1
  {
    VisitedSmaller(n);
    var base := n.base;
    assert ProcessAst(n, ctx).value.ctx == ProcessAst(base, ctx).value.ctx;
    ProcessContext(base, ctx);
    AfterVisited(n, ctx);
    assert Visited(n) == [base] && [base][1..] == [];
    AfterCons([base], ctx);
  }

  lemma {:induction false} CloneContext(n: Node, ctx: Context)
    requires CloneAst(n, ctx).Ok?
    ensures CloneAst(n, ctx).value.ctx == AfterList(Children(n), ctx)
    decreases Size(n), 0
  {
    ChildrenSmaller(n);
    ProcessListContext(Children(n), ctx);
  }

  lemma {:induction false} ProcessListContext(ns: seq<Node>, ctx: Context)
    requires ProcessList(ns, ctx).Ok?
    ensures ProcessList(ns, ctx).value.ctx == AfterList(ns, ctx)
    decreases SizeList(ns), 3
  {
    if ns != [] {
      var first := ProcessAst(ns[0], ctx).value;
      ProcessContext(ns[0], ctx);
      ProcessListContext(ns[1..], first.ctx);
      AddNamesAppend(ctx.variables, Free(ns[0], ctx.declarations, ctx.fields),
                     FreeList(ns[1..], ctx.declarations, ctx.fields));
    }
  }

  // ---------------------------------------------------------------------
  // Restricted statements

  /** The pass fails on a tree exactly when it meets a restricted statement
      or has to hoist into an expression body; a `NotAllowed` failure always
      comes from a restricted statement the pass walks. */
  lemma {:induction false} RestrictedFails(n: Node, ctx: Context)
    ensures Restricted(n) ==> ProcessAst(n, ctx).Fail?
    ensures ProcessAst(n, ctx).Fail? && ProcessAst(n, ctx).error.NotAllowed? ==> Restricted(n)
    decreases Size(n), 2
  {
    VisitedSmaller(n);
    if n.Function? {
      ChildrenSmaller(n);
      RestrictedListFails(Children(n), EnterFunction(n, ctx));
    } else if n.Identifier? {
      assert Visited(n) == [];
      assert !AnyRestricted(Visited(n));
      assert !Restricted(n);
    } else if n.Member? {
      MemberRestrictedFails(n, ctx);
    } else if n.Await? {
      CloneRestrictedFails(n, ctx.(hasAwait := true));
    } else if n.Assignment? && n.left.Identifier? && n.left.name !in ctx.declarations && n.left.name !in ctx.fields {
      CloneRestrictedFails(n, ctx.(variables := AddName(ctx.variables, n.left.name)));
    } else if !n.If? && !n.Loop? {
      CloneRestrictedFails(n, ctx);
    }
  }

  lemma {:induction false} MemberRestrictedFails(n: Node, ctx: Context)
    requires n.Member?
    ensures Restricted(n) ==> ProcessAst(n, ctx).Fail?
    ensures ProcessAst(n, ctx).Fail? && ProcessAst(n, ctx).error.NotAllowed? ==> Restricted(n)
    decreases Size(n), 1
  {
    VisitedSmaller(n);
    var base, property := n.base, n.property;
    if n.computed {
      var vs := [property, base];
      assert Visited(n) == vs && vs[1..] == [base] && [base][1..] == [];
      assert AnyRestricted([base]) == (Restricted(base) || AnyRestricted([]));
      assert AnyRestricted(vs) == (Restricted(property) || AnyRestricted([base]));
      assert Restricted(n) == (Restricted(property) || Restricted(base));
      RestrictedFails(property, ctx);
      if ProcessAst(property, ctx).Ok? {
        RestrictedFails(base, ProcessAst(property, ctx).value.ctx);
      }
    } else {
      assert Visited(n) == [base] && [base][1..] == [];
      assert AnyRestricted([base]) == (Restricted(base) || AnyRestricted([]));
      assert Restricted(n) == Restricted(base);
      RestrictedFails(base, ctx);
    }
  }

  lemma {:induction false} CloneRestrictedFails(n: Node, ctx: Context)
    requires !n.Member?
    ensures AnyRestricted(Children(n)) ==> CloneAst(n, ctx).Fail?
    ensures CloneAst(n, ctx).Fail? && CloneAst(n, ctx).error.NotAllowed? ==> AnyRestricted(Children(n))
    decreases Size(n), 0
  {
    ChildrenSmaller(n);
    RestrictedListFails(Children(n), ctx);
  }

  lemma {:induction false} RestrictedListFails(ns: seq<Node>, ctx: Context)
    ensures AnyRestricted(ns) ==> ProcessList(ns, ctx).Fail?
    ensures ProcessList(ns, ctx).Fail? && ProcessList(ns, ctx).error.NotAllowed? ==> AnyRestricted(ns)
    decreases SizeList(ns), 3
  {
    if ns != [] {
      RestrictedFails(ns[0], ctx);
      if ProcessAst(ns[0], ctx).Ok? {
        RestrictedListFails(ns[1..], ProcessAst(ns[0], ctx).value.ctx);
      }
    }
  }

  // ---------------------------------------------------------------------
  // Fields

  predicate AllFieldFree(ns: seq<Node>, fields: set<string>)
  {
    forall i :: 0 <= i < |ns| ==> FieldFree(ns[i], fields)
  }

  /** After the pass no field is named bare any more: every such identifier
      has become `self.<name>` (unless a field is itself called `self`). */
  lemma {:induction false} ProcessFieldFree(n: Node, ctx: Context)
    requires "self" !in ctx.fields
    ensures ProcessAst(n, ctx).Ok? ==> FieldFree(ProcessAst(n, ctx).value.node, ctx.fields)
    decreases Size(n), 2
  {
    if ProcessAst(n, ctx).Ok? {
      var f := ctx.fields;
      var r := ProcessAst(n, ctx).value.node;
      if n.Function? {
        FunctionFieldFree(n, ctx);
      } else if n.Identifier? {
        if n.name in f {
          assert r == Member(Identifier("self"), n, false);
          assert Visited(r) == [Identifier("self")];
          assert FieldFree(Identifier("self"), f);
        } else {
          assert r == n && Visited(n) == [];
        }
      } else if n.Member? {
        MemberFieldFree(n, ctx);
      } else if n.Await? {
        CloneFieldFree(n, ctx.(hasAwait := true));
      } else if n.Assignment? && n.left.Identifier? && n.left.name !in ctx.declarations && n.left.name !in f {
        CloneFieldFree(n, ctx.(variables := AddName(ctx.variables, n.left.name)));
      } else {
        CloneFieldFree(n, ctx);
      }
    }
  }

  lemma {:induction false} MemberFieldFree(n: Node, ctx: Context)
    requires n.Member? && "self" !in ctx.fields
    ensures ProcessAst(n, ctx).Ok? ==> FieldFree(ProcessAst(n, ctx).value.node, ctx.fields)
    decreases Size(n), 1
  {
    VisitedSmaller(n);
    if ProcessAst(n, ctx).Ok? {
      var r := ProcessAst(n, ctx).value.node;
      if n.computed {
        var p := ProcessAst(n.property, ctx).value;
        var o := ProcessAst(n.base, p.ctx).value;
        ProcessContext(n.property, ctx);
        ProcessFieldFree(n.property, ctx);
        ProcessFieldFree(n.base, p.ctx);
        assert r == Member(o.node, p.node, true);
        assert Visited(r) == [p.node, o.node];
      } else {
        var o := ProcessAst(n.base, ctx).value;
        ProcessFieldFree(n.base, ctx);
        assert r == Member(o.node, n.property, false);
        assert Visited(r) == [o.node];
      }
    }
  }

  lemma {:induction false} CloneFieldFree(n: Node, ctx: Context)
    requires !n.Member? && !n.Identifier? && "self" !in ctx.fields
    ensures CloneAst(n, ctx).Ok? ==> FieldFree(CloneAst(n, ctx).value.node, ctx.fields)
    decreases Size(n), 0
  {
    ChildrenSmaller(n);
    if CloneAst(n, ctx).Ok? {
      var inner := ProcessList(Children(n), ctx).value;
      ListFieldFree(Children(n), ctx);
      var r := Rebuild(n, inner.nodes);
      RebuildKind(n, inner.nodes);
      assert CloneAst(n, ctx).value.node == r;
      assert Visited(r) == inner.nodes;
    }
  }

  lemma {:induction false} ListFieldFree(ns: seq<Node>, ctx: Context)
    requires "self" !in ctx.fields
    ensures ProcessList(ns, ctx).Ok? ==> AllFieldFree(ProcessList(ns, ctx).value.nodes, ctx.fields)
    decreases SizeList(ns), 3
  {
    if ns != [] && ProcessList(ns, ctx).Ok? {
      var first := ProcessAst(ns[0], ctx).value;
      ProcessFieldFree(ns[0], ctx);
      ProcessContext(ns[0], ctx);
      ListFieldFree(ns[1..], first.ctx);
      var rest := ProcessList(ns[1..], first.ctx).value;
      assert ProcessList(ns, ctx).value.nodes == [first.node] + rest.nodes;
    }
  }

  lemma {:induction false} FunctionFieldFree(n: Node, ctx: Context)
    requires n.Function? && "self" !in ctx.fields
    ensures ProcessAst(n, ctx).Ok? ==> FieldFree(ProcessAst(n, ctx).value.node, ctx.fields)
    decreases Size(n), 1
  {
    ChildrenSmaller(n);
    if ProcessAst(n, ctx).Ok? {
      var inner_ctx := EnterFunction(n, ctx);
      var inner := ProcessList(Children(n), inner_ctx).value;
      ListFieldFree(Children(n), inner_ctx);
      ProcessListContext(Children(n), inner_ctx);
      var vars := inner.ctx.variables;
      assert vars == AddNames([], FreeList(Children(n), inner_ctx.declarations, ctx.fields));
      var copy := Rebuild(n, inner.nodes);
      var r := ProcessAst(n, ctx).value.node;
      assert r == Function(copy.kind, copy.id, copy.params, WithVariables(copy.body, vars), copy.exprBody, copy.declarations);
      assert copy.id + copy.params + copy.body == inner.nodes;
      HoistedFieldFree(copy.id + copy.params, copy.body, vars, ctx.fields);
      assert Visited(r) == copy.id + copy.params + WithVariables(copy.body, vars);
    }
  }

  /** Inserting the hoisted declaration keeps a statement list field-free. */
  lemma HoistedFieldFree(head: seq<Node>, body: seq<Node>, vars: seq<string>, fields: set<string>)
    requires AllFieldFree(head + body, fields)
    requires forall v :: v in vars ==> v !in fields
    ensures AllFieldFree(head + WithVariables(body, vars), fields)
  {
    if vars != [] {
      DeclarationFieldFree(vars, fields);
      var all := head + ([VarDecl(Declarators(vars))] + body);
      forall i | 0 <= i < |all|
        ensures FieldFree(all[i], fields)
      {
        if i < |head| {
          assert all[i] == (head + body)[i];
        } else if i > |head| {
          assert all[i] == (head + body)[i - 1];
        }
      }
    }
  }

  /** The hoisted declaration names only non-fields. */
  lemma DeclarationFieldFree(vars: seq<string>, fields: set<string>)
    requires forall v :: v in vars ==> v !in fields
    ensures FieldFree(VarDecl(Declarators(vars)), fields)
  {
    var ds := Declarators(vars);
    assert Visited(VarDecl(ds)) == ds;
    forall i | 0 <= i < |ds|
      ensures FieldFree(ds[i], fields)
    {
      var id := MakeId(vars[i]);
      assert Visited(id) == [];
      assert FieldFree(id, fields);
      assert Visited(ds[i]) == [id];
    }
  }

  // ---------------------------------------------------------------------
  // The output tree

  /** The field rewrite on its own, without a context: a field `x` named
      bare becomes `self.x`, the property of a plain `a.b` is kept as
      written, and every other node is rebuilt from its rewritten children,
      in place and in order.  Nothing is hoisted. */
  function SelfRewrite(n: Node, fields: set<string>): (r: Node)
    ensures fields == {} ==> r == n
    decreases Size(n), 1
  {
    ChildrenSmaller(n);
    if n.Identifier? then
      if n.name in fields then AddSelf(n) else n
    else if n.Member? then
      var b := SelfRewrite(n.base, fields);
      Member(b, if n.computed then SelfRewrite(n.property, fields) else n.property, n.computed)
    else
      RebuildChildren(n);
      Rebuild(n, SelfRewriteList(Children(n), fields))
  }

  function SelfRewriteList(ns: seq<Node>, fields: set<string>): (r: seq<Node>)
    ensures |r| == |ns|
    ensures fields == {} ==> r == ns
    decreases SizeList(ns), 2
  {
    if ns == [] then [] else [SelfRewrite(ns[0], fields)] + SelfRewriteList(ns[1..], fields)
  }

  /** A function somewhere in the part of the tree the pass walks, the node
      itself included. */
  predicate HasFunction(n: Node)
    decreases Size(n), 1
  {
    VisitedSmaller(n);
    n.Function? || AnyHasFunction(Visited(n))
  }

  predicate AnyHasFunction(ns: seq<Node>)
    decreases SizeList(ns), 2
  {
    ns != [] && (HasFunction(ns[0]) || AnyHasFunction(ns[1..]))
  }

  /** Away from functions the pass is exactly the field rewrite: it keeps
      every node, child and order of the tree, turns each field named bare
      into `self.<name>` and leaves the property of a plain `a.b` alone. */
  lemma {:induction false} ProcessRewrites(n: Node, ctx: Context)
    requires !HasFunction(n)
    ensures ProcessAst(n, ctx).Ok? ==> ProcessAst(n, ctx).value.node == SelfRewrite(n, ctx.fields)
    decreases Size(n), 2
  {
    if ProcessAst(n, ctx).Ok? {
      VisitedSmaller(n);
      if n.Identifier? {
      } else if n.Member? {
        MemberRewrites(n, ctx);
      } else if n.Await? {
        CloneRewrites(n, ctx.(hasAwait := true));
      } else if n.Assignment? && n.left.Identifier? && n.left.name !in ctx.declarations && n.left.name !in ctx.fields {
        CloneRewrites(n, ctx.(variables := AddName(ctx.variables, n.left.name)));
      } else {
        CloneRewrites(n, ctx);
      }
    }
  }

  lemma {:induction false} MemberRewrites(n: Node, ctx: Context)
    requires n.Member? && !HasFunction(n)
    ensures ProcessAst(n, ctx).Ok? ==> ProcessAst(n, ctx).value.node == SelfRewrite(n, ctx.fields)
    decreases Size(n), 1
  {
    VisitedSmaller(n);
    var base, property := n.base, n.property;
    if ProcessAst(n, ctx).Ok? {
      if n.computed {
        var vs := [property, base];
        assert Visited(n) == vs && vs[1..] == [base];
        assert !HasFunction(property) && !AnyHasFunction([base]);
        var p := ProcessAst(property, ctx).value;
        ProcessContext(property, ctx);
        ProcessRewrites(property, ctx);
        ProcessRewrites(base, p.ctx);
      } else {
        assert Visited(n) == [base];
        ProcessRewrites(base, ctx);
      }
    }
  }

  lemma {:induction false} CloneRewrites(n: Node, ctx: Context)
    requires !n.Member? && !n.Function? && !AnyHasFunction(Children(n))
    ensures CloneAst(n, ctx).Ok? ==> CloneAst(n, ctx).value.node == Rebuild(n, SelfRewriteList(Children(n), ctx.fields))
    decreases Size(n), 0
  {
    ChildrenSmaller(n);
    ListRewrites(Children(n), ctx);
  }

  lemma {:induction false} ListRewrites(ns: seq<Node>, ctx: Context)
    requires !AnyHasFunction(ns)
    ensures ProcessList(ns, ctx).Ok? ==> ProcessList(ns, ctx).value.nodes == SelfRewriteList(ns, ctx.fields)
    decreases SizeList(ns), 3
  {
    if ns != [] && ProcessList(ns, ctx).Ok? {
      var first := ProcessAst(ns[0], ctx).value;
      ProcessRewrites(ns[0], ctx);
      ProcessContext(ns[0], ctx);
      ListRewrites(ns[1..], first.ctx);
    }
  }

  /** With no fields, which is how the pass is always entered, a tree
      without functions comes out of a successful pass as it went in. */
  lemma ProcessKeepsTree(n: Node, ctx: Context)
    requires ctx.fields == {} && !HasFunction(n)
    ensures ProcessAst(n, ctx).Ok? ==> ProcessAst(n, ctx).value.node == n
  {
    ProcessRewrites(n, ctx);
  }

  /** A function whose parameters and body hold no nested function comes
      out as its field rewrite with the hoisted declaration in front of its
      body, and nothing else changed. */
  lemma FunctionRewrites(n: Node, ctx: Context)
    requires n.Function? && !AnyHasFunction(Children(n))
    ensures ProcessAst(n, ctx).Ok? ==>
              var c := SelfRewrite(n, ctx.fields);
              c.Function? &&
              ProcessAst(n, ctx).value.node ==
                Function(c.kind, c.id, c.params, WithVariables(c.body, Hoisted(n, ctx)), c.exprBody, c.declarations)
  {
    if ProcessAst(n, ctx).Ok? {
      ChildrenSmaller(n);
      var inner := EnterFunction(n, ctx);
      ListRewrites(Children(n), inner);
      ProcessListContext(Children(n), inner);
    }
  }

  // ---------------------------------------------------------------------
  // Entering a function

  /** An implicitly declared name is recorded once. */
  lemma {:induction false} AddNamesNoDuplicates(names: seq<string>, more: seq<string>)
    requires NoDuplicates(names)
    ensures NoDuplicates(AddNames(names, more))
    decreases |more|
  {
    if more != [] {
      var next := AddName(names, more[0]);
      assert NoDuplicates(next) by {
        if more[0] !in names {
          assert forall i :: 0 <= i < |names| ==> next[i] == names[i];
        }
      }
      AddNamesNoDuplicates(next, more[1..]);
    }
  }

  /** The names a function hoists: those assigned freely in its parameters
      and body, judged against the context it is entered with. */
  function Hoisted(f: Node, ctx: Context): seq<string>
    requires f.Function?
  {
    var inner := EnterFunction(f, ctx);
    AddNames([], FreeList(Children(f), inner.declarations, inner.fields))
  }

  /** A nested function leaves the enclosing context as it was; it hoists
      each name once, and only names that are neither declared around it,
      nor its own `var`s, nor already implicit in the enclosing function,
      nor fields; the hoisted `var` comes first in its body, and its name,
      parameters and the rest of its body are the processed children. */
  lemma FunctionEntry(n: Node, ctx: Context)
    requires n.Function?
    ensures ProcessAst(n, ctx).Ok? ==> ProcessAst(n, ctx).value.ctx == ctx
    ensures forall v :: v in Hoisted(n, ctx) ==>
              v !in ctx.declarations && v !in n.declarations && v !in ctx.variables && v !in ctx.fields
    ensures NoDuplicates(Hoisted(n, ctx))
    ensures ProcessAst(n, ctx).Ok? ==>
              var f := ProcessAst(n, ctx).value.node;
              f.Function? && f.kind == n.kind && f.exprBody == n.exprBody && f.declarations == n.declarations &&
              |f.body| == |n.body| + (if Hoisted(n, ctx) == [] then 0 else 1) &&
              (Hoisted(n, ctx) != [] ==> f.body[0] == VarDecl(Declarators(Hoisted(n, ctx))))
    ensures ProcessAst(n, ctx).Ok? ==>
              var f := ProcessAst(n, ctx).value.node;
              var k := if Hoisted(n, ctx) == [] then 0 else 1;
              var inner := ProcessList(Children(n), EnterFunction(n, ctx));
              f.Function? && |f.body| >= k && inner.Ok? &&
              f.id + f.params + f.body[k..] == inner.value.nodes
  {
    var inner := EnterFunction(n, ctx);
    AddNamesNoDuplicates([], FreeList(Children(n), inner.declarations, inner.fields));
    if ProcessAst(n, ctx).Ok? {
      var nodes := FunctionOutput(n, ctx);
      var copy := Rebuild(n, nodes);
      HoistedDeclares(copy.body, Hoisted(n, ctx));
    }
  }

  /** The processed children of a function the pass succeeds on, and the
      function it makes of them: the copy with the hoisted declaration in
      front of its body. */
  lemma FunctionOutput(n: Node, ctx: Context) returns (nodes: seq<Node>)
    requires n.Function? && ProcessAst(n, ctx).Ok?
    ensures ProcessList(Children(n), EnterFunction(n, ctx)).Ok?
    ensures nodes == ProcessList(Children(n), EnterFunction(n, ctx)).value.nodes
    ensures |nodes| == |Children(n)|
    ensures var copy := Rebuild(n, nodes);
            copy.id + copy.params + copy.body == nodes && |copy.body| == |n.body| &&
            ProcessAst(n, ctx).value.node ==
              Function(n.kind, copy.id, copy.params, WithVariables(copy.body, Hoisted(n, ctx)), n.exprBody, n.declarations)
  {
    var inner := EnterFunction(n, ctx);
    ChildrenSmaller(n);
    ProcessListContext(Children(n), inner);
    nodes := ProcessList(Children(n), inner).value.nodes;
    var copy := Rebuild(n, nodes);
    assert copy.body == nodes[|n.id| + |n.params|..];
  }

  /** An arrow function that hoists names but has an expression body, which
      has no statement list to put the `var` in, makes the pass fail; every
      other function the pass can walk succeeds. */
  lemma HoistFailure(n: Node, ctx: Context)
    requires n.Function? && ProcessList(Children(n), EnterFunction(n, ctx)).Ok?
    ensures ProcessAst(n, ctx).Fail? <==> n.exprBody && Hoisted(n, ctx) != []
  {
    ChildrenSmaller(n);
    ProcessListContext(Children(n), EnterFunction(n, ctx));
  }
}
