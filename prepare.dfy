/** Preparing the statements of an algorithm before they are split into
    sections: the declaration pre-pass over every statement, then the scope
    pass statement by statement with one context, then the hoisted `var` in
    front.  A function declaration written directly in the algorithm is not
    entered as a nested function: its statements are treated as statements
    of the algorithm itself. */
module Prepare {
  import opened Errors
  import opened Syntax
  import opened Text
  import opened Common
  import opened Declarations
  import opened Scope

  /** createVarContext: the context of a standalone algorithm. */
  function NewContext(): Context
  {
    Context({}, {}, [], false)
  }

  /** createVarContextFromModule: an algorithm of a module sees every name
      the module declares, explicitly or implicitly, and no fields. */
  function ModuleContext(m: Context): (c: Context)
    ensures c.variables == [] && !c.hasAwait && c.fields == {}
  {
    Context(m.declarations + (set v | v in m.variables), {}, [], false)
  }

  /** A name the module has already declared, explicitly or implicitly, is
      never hoisted again by one of its algorithms. */
  lemma ModuleNamesNotRehoisted(m: Context, body: seq<Node>)
    ensures forall v :: v in FreeList(body, ModuleContext(m).declarations, ModuleContext(m).fields) ==>
              v !in m.declarations && v !in m.variables
  {
  }

  predicate IsFunctionDeclaration(n: Node)
  {
    n.Function? && n.kind == Declaration
  }

  /** extractVariables: a function declaration contributes the names its
      body declares; every other statement goes through the pre-pass. */
  function ExtractVariables(n: Node, declarations: set<string>): Collected
  {
    if IsFunctionDeclaration(n) then
      var inner := CollectList(n.body, declarations);
      Collected(Function(n.kind, n.id, n.params, inner.nodes, n.exprBody, n.declarations), inner.declarations)
    else Collect(n, declarations)
  }

  /** transformStatement: the statements of a function declaration are
      processed in the algorithm's own context. */
  function TransformStatement(n: Node, ctx: Context): (r: Result<Processed>)
    ensures r.Fail? ==> r.error.NotAllowed? || r.error == HoistIntoExpressionBody
  {
    if IsFunctionDeclaration(n) then
      var inner :- ProcessList(n.body, ctx);
      Ok(Processed(Function(n.kind, n.id, n.params, inner.nodes, n.exprBody, n.declarations), inner.ctx))
    else ProcessAst(n, ctx)
  }

  function ExtractAll(ns: seq<Node>, declarations: set<string>): (r: CollectedList)
    ensures |r.nodes| == |ns|
  {
    if ns == [] then CollectedList([], declarations)
    else
      var first := ExtractVariables(ns[0], declarations);
      var rest := ExtractAll(ns[1..], first.declarations);
      CollectedList([first.node] + rest.nodes, rest.declarations)
  }

  function TransformAll(ns: seq<Node>, ctx: Context): (r: Result<ProcessedList>)
    ensures r.Ok? ==> |r.value.nodes| == |ns|
  {
    if ns == [] then Ok(ProcessedList([], ctx))
    else
      var first :- TransformStatement(ns[0], ctx);
      var rest :- TransformAll(ns[1..], first.ctx);
      Ok(ProcessedList([first.node] + rest.nodes, rest.ctx))
  }

  datatype Prepared = Prepared(body: seq<Node>, ctx: Context)

  /** What prepareAst computes: the rewritten statements with the hoisted
      declaration in front, and the context it leaves. */
  function PrepareSpec(arguments: seq<string>, body: seq<Node>, ctx: Context): Result<Prepared>
  {
    var e := ExtractAll(body, ctx.declarations + (set a | a in arguments));
    var t :- TransformAll(e.nodes, ctx.(declarations := e.declarations));
    Ok(Prepared(WithVariables(t.nodes, t.ctx.variables), t.ctx))
  }

  /** The pre-pass over the statements in order (`forEach` with
      extractVariables). */
  method ExtractStatements(body: seq<Node>, start: set<string>) returns (stamped: seq<Node>, declarations: set<string>)
    ensures CollectedList(stamped, declarations) == ExtractAll(body, start)
  {
    declarations := start;
    stamped := [];
    var i := 0;
    while i < |body|
      invariant 0 <= i <= |body|
      invariant ExtractAll(body, start) ==
                var rest := ExtractAll(body[i..], declarations); CollectedList(stamped + rest.nodes, rest.declarations)
    {
      assert body[i..][1..] == body[i + 1..];
      var c := ExtractVariables(body[i], declarations);
      var rest := ExtractAll(body[i + 1..], c.declarations);
      assert stamped + ([c.node] + rest.nodes) == (stamped + [c.node]) + rest.nodes;
      stamped := stamped + [c.node];
      declarations := c.declarations;
      i := i + 1;
    }
    assert stamped + [] == stamped;
  }

  /** The scope pass over the statements in order (`map` with
      transformStatement), stopping at the first failure. */
  method TransformStatements(stamped: seq<Node>, start: Context) returns (r: Result<ProcessedList>)
    ensures r == TransformAll(stamped, start)
  {
    var current := start;
    var out: seq<Node> := [];
    var j := 0;
    assert TransformAll(stamped, current).Ok? ==>
           [] + TransformAll(stamped, current).value.nodes == TransformAll(stamped, current).value.nodes;
    while j < |stamped|
      invariant 0 <= j <= |stamped|
      invariant TransformAll(stamped, start) ==
                var rest := TransformAll(stamped[j..], current);
                if rest.Fail? then rest else Ok(ProcessedList(out + rest.value.nodes, rest.value.ctx))
    {
      assert stamped[j..][1..] == stamped[j + 1..];
      var p := TransformStatement(stamped[j], current);
      if p.Fail? {
        return Fail(p.error);
      }
      var rest := TransformAll(stamped[j + 1..], p.value.ctx);
      assert rest.Ok? ==> out + ([p.value.node] + rest.value.nodes) == (out + [p.value.node]) + rest.value.nodes;
      out := out + [p.value.node];
      current := p.value.ctx;
      j := j + 1;
    }
    assert out + [] == out;
    r := Ok(ProcessedList(out, current));
  }

  /** prepareAst */
  method PrepareAst(arguments: seq<string>, body: seq<Node>, ctx: Context) returns (r: Result<Prepared>)
    ensures r == PrepareSpec(arguments, body, ctx)
  {
    var declarations := AddToSet(arguments, ctx.declarations);
    var stamped, all := ExtractStatements(body, declarations);
    var t := TransformStatements(stamped, ctx.(declarations := all));
    if t.Fail? {
      return Fail(t.error);
    }
    var result := PrependVariables(t.value.nodes, t.value.ctx.variables);
    r := Ok(Prepared(result, t.value.ctx));
  }

  // ---------------------------------------------------------------------
  // Properties

  /** The statements as the scope pass sees them: a function declaration
      stands for its own statements. */
  function Flat(n: Node): seq<Node>
  {
    if IsFunctionDeclaration(n) then n.body else [n]
  }

  function FlatAll(ns: seq<Node>): seq<Node>
  {
    if ns == [] then [] else Flat(ns[0]) + FlatAll(ns[1..])
  }

  function TopVars(n: Node): set<string>
  {
    if IsFunctionDeclaration(n) then OwnVarsList(n.body) else OwnVars(n)
  }

  function TopVarsAll(ns: seq<Node>): set<string>
  {
    if ns == [] then {} else TopVars(ns[0]) + TopVarsAll(ns[1..])
  }

  lemma {:induction false} ExtractAllAdds(ns: seq<Node>, declarations: set<string>)
    ensures ExtractAll(ns, declarations).declarations == declarations + TopVarsAll(ns)
  {
    if ns != [] {
      var n := ns[0];
      if IsFunctionDeclaration(n) {
        CollectListAdds(n.body, declarations);
      } else {
        CollectAdds(n, declarations);
      }
      ExtractAllAdds(ns[1..], ExtractVariables(n, declarations).declarations);
    }
  }

  lemma {:induction false} AnyAwaitsAppend(a: seq<Node>, b: seq<Node>)
    ensures AnyAwaits(a + b) == (AnyAwaits(a) || AnyAwaits(b))
  {
    if a == [] {
      assert a + b == b;
    } else {
      assert (a + b)[0] == a[0] && (a + b)[1..] == a[1..] + b;
      AnyAwaitsAppend(a[1..], b);
    }
  }

  lemma AfterListAppend(a: seq<Node>, b: seq<Node>, ctx: Context)
    ensures AfterList(a + b, ctx) == AfterList(b, AfterList(a, ctx))
  {
    FreeListAppend(a, b, ctx.declarations, ctx.fields);
    AddNamesAppend(ctx.variables, FreeList(a, ctx.declarations, ctx.fields), FreeList(b, ctx.declarations, ctx.fields));
    AnyAwaitsAppend(a, b);
  }

  lemma TransformContext(n: Node, ctx: Context)
    requires TransformStatement(n, ctx).Ok?
    ensures TransformStatement(n, ctx).value.ctx == AfterList(Flat(n), ctx)
  {
    if IsFunctionDeclaration(n) {
      ProcessListContext(n.body, ctx);
    } else {
      ProcessContext(n, ctx);
      AfterCons([n], ctx);
      assert [n][1..] == [];
    }
  }

  /** Transforming statement by statement threads the context exactly as
      one pass over all the statements, function declarations opened up. */
  lemma {:induction false} TransformAllContext(ns: seq<Node>, ctx: Context)
    requires TransformAll(ns, ctx).Ok?
    ensures TransformAll(ns, ctx).value.ctx == AfterList(FlatAll(ns), ctx)
  {
    if ns == [] {
      assert AfterList([], ctx) == ctx;
    } else {
      var first := TransformStatement(ns[0], ctx).value;
      TransformContext(ns[0], ctx);
      TransformAllContext(ns[1..], first.ctx);
      AfterListAppend(Flat(ns[0]), FlatAll(ns[1..]), ctx);
    }
  }

  /** prepareAst declares the parameters and every `var` of the algorithm;
      it hoists, once each and in order of first assignment, exactly the
      names assigned in the algorithm that are neither declared nor fields,
      puts their declaration first, and records whether the algorithm
      awaits. */
  lemma PrepareResult(arguments: seq<string>, body: seq<Node>, ctx: Context)
    requires PrepareSpec(arguments, body, ctx).Ok?
    requires NoDuplicates(ctx.variables)
    ensures var p := PrepareSpec(arguments, body, ctx).value;
            var decls := ctx.declarations + (set a | a in arguments) + TopVarsAll(body);
            var stamped := FlatAll(ExtractAll(body, ctx.declarations + (set a | a in arguments)).nodes);
            p.ctx.declarations == decls &&
            p.ctx.fields == ctx.fields &&
            p.ctx.variables == AddNames(ctx.variables, FreeList(stamped, decls, ctx.fields)) &&
            NoDuplicates(p.ctx.variables) &&
            (forall v :: v in p.ctx.variables ==> v in ctx.variables || (v !in decls && v !in ctx.fields)) &&
            p.ctx.hasAwait == (ctx.hasAwait || AnyAwaits(stamped)) &&
            |p.body| == |body| + (if p.ctx.variables == [] then 0 else 1) &&
            (p.ctx.variables != [] ==> p.body[0] == VarDecl(Declarators(p.ctx.variables)))
  {
    var d0 := ctx.declarations + (set a | a in arguments);
    var e := ExtractAll(body, d0);
    ExtractAllAdds(body, d0);
    var start := ctx.(declarations := e.declarations);
    TransformAllContext(e.nodes, start);
    AddNamesNoDuplicates(ctx.variables, FreeList(FlatAll(e.nodes), e.declarations, ctx.fields));
  }
}
