/** The partition step of the quicksort example under the scope pass.

    In the quicksort algorithm `storeIndex = begin` comes before
    `loop(begin, last, i => { storeIndex = compareWithLastAndSwap(...) })`,
    so by the time the pass enters the arrow function `storeIndex` is an
    implicit name of the enclosing function: the arrow function must not
    declare a `var storeIndex` of its own, which would hide the outer one. */
module ScopeExample {
  import opened Errors
  import opened Syntax
  import opened Scope

  function Id(s: string): Node { Identifier(s) }

  function CompareCall(): Node
  {
    Call(Id("compareWithLastAndSwap"), [Id("array"), Id("i"), Id("last"), Id("storeIndex"), Id("cmp")])
  }

  /** `i => { storeIndex = compareWithLastAndSwap(array, i, last, storeIndex, cmp) }` */
  function PartitionStep(): Node
  {
    Function(Arrow, [], [Id("i")], [ExprStatement(Assignment(Id("storeIndex"), CompareCall()))], false, {})
  }

  /** `loop(begin, last, <PartitionStep>)` */
  function PartitionLoop(): Node
  {
    CallStatement("loop", [Id("begin"), Id("last"), PartitionStep()])
  }

  lemma IdentifiersFree(ns: seq<Node>, d: set<string>)
    requires forall i :: 0 <= i < |ns| ==> ns[i].Identifier?
    ensures FreeList(ns, d, {}) == []
  {
    if ns != [] {
      assert Visited(ns[0]) == [];
      IdentifiersFree(ns[1..], d);
    }
  }

  lemma ListUnchanged(ns: seq<Node>, ctx: Context)
    requires forall i :: 0 <= i < |ns| ==> ProcessAst(ns[i], ctx) == Ok(Processed(ns[i], ctx))
    ensures ProcessList(ns, ctx) == Ok(ProcessedList(ns, ctx))
  {
    if ns != [] {
      ListUnchanged(ns[1..], ctx);
      assert [ns[0]] + ns[1..] == ns;
    }
  }

  lemma CloneUnchanged(n: Node, ctx: Context)
    requires forall i :: 0 <= i < |Children(n)| ==> ProcessAst(Children(n)[i], ctx) == Ok(Processed(Children(n)[i], ctx))
    ensures CloneAst(n, ctx) == Ok(Processed(n, ctx))
  {
    ListUnchanged(Children(n), ctx);
    RebuildChildren(n);
  }

  lemma CompareCallUnchanged(ctx: Context)
    requires ctx.fields == {}
    ensures ProcessAst(CompareCall(), ctx) == Ok(Processed(CompareCall(), ctx))
  {
    CloneUnchanged(CompareCall(), ctx);
  }

  lemma IdentifierFree(name: string, d: set<string>, f: set<string>)
    ensures Free(Id(name), d, f) == []
  {
    assert Visited(Id(name)) == [];
    assert Free(Id(name), d, f) == [] + [];
  }

  /** An expression statement assigns what its expression assigns. */
  lemma ExprStatementFree(e: Node, d: set<string>, f: set<string>)
    ensures Free(ExprStatement(e), d, f) == Free(e, d, f)
  {
    assert Visited(ExprStatement(e)) == [e] && [e][1..] == [];
    assert FreeList([e], d, f) == Free(e, d, f) + [];
    assert Free(ExprStatement(e), d, f) == [] + FreeList([e], d, f);
  }

  /** A call that assigns nothing in its children assigns nothing. */
  lemma CallFree(e: Node, d: set<string>, f: set<string>)
    requires FreeList(Children(e), d, f) == [] && e.Call?
    ensures Free(e, d, f) == []
  {
    assert Visited(e) == Children(e);
    assert Free(e, d, f) == [] + [];
  }

  /** The assignment `x = e`, where `e` is a call that assigns nothing,
      assigns `x` freely unless `x` is declared or a field. */
  lemma AssignmentFree(x: string, e: Node, d: set<string>, f: set<string>)
    requires FreeList(Children(e), d, f) == [] && e.Call?
    ensures Free(Assignment(Id(x), e), d, f) == if x in d || x in f then [] else [x]
  {
    var asg := Assignment(Id(x), e);
    CallFree(e, d, f);
    IdentifierFree(x, d, f);
    assert Visited(asg) == [Id(x), e] && [Id(x), e][1..] == [e] && [e][1..] == [];
    assert FreeList([e], d, f) == Free(e, d, f) + [];
    assert FreeList([Id(x), e], d, f) == Free(Id(x), d, f) + FreeList([e], d, f);
    var own := if x in d || x in f then [] else [x];
    assert Free(asg, d, f) == own + FreeList([Id(x), e], d, f);
  }

  /** A list of at most one name is its own set of distinct names. */
  lemma AddNamesOne(names: seq<string>)
    requires |names| <= 1
    ensures AddNames([], names) == names
  {
    if names != [] {
      assert names[1..] == [];
      assert AddNames([], names) == AddNames(AddName([], names[0]), []);
    }
  }

  /** The names assigned freely in `(i) => { x = e }`, where `e` is a
      call that assigns nothing. */
  lemma ArrowFree(arrow: Node, x: string, e: Node, d: set<string>, f: set<string>)
    requires arrow == Function(Arrow, [], [Id("i")], [ExprStatement(Assignment(Id(x), e))], false, {})
    requires FreeList(Children(e), d, f) == [] && e.Call?
    ensures FreeList(Children(arrow), d, f) == if x in d || x in f then [] else [x]
  {
    var st := ExprStatement(Assignment(Id(x), e));
    AssignmentFree(x, e, d, f);
    ExprStatementFree(Assignment(Id(x), e), d, f);
    IdentifierFree("i", d, f);
    assert Children(arrow) == [Id("i"), st] && [Id("i"), st][1..] == [st] && [st][1..] == [];
    assert FreeList([st], d, f) == Free(st, d, f) + [];
    assert FreeList(Children(arrow), d, f) == Free(Id("i"), d, f) + FreeList([st], d, f);
  }

  /** The names an arrow function `(i) => { x = e }` hoists, where `e`
      assigns nothing. */
  lemma ArrowHoists(arrow: Node, x: string, e: Node, ctx: Context)
    requires arrow == Function(Arrow, [], [Id("i")], [ExprStatement(Assignment(Id(x), e))], false, {})
    requires FreeList(Children(e), EnterFunction(arrow, ctx).declarations, ctx.fields) == []
    requires e.Call?
    ensures Hoisted(arrow, ctx) ==
              if x in EnterFunction(arrow, ctx).declarations || x in ctx.fields then [] else [x]
  {
    var d, f := EnterFunction(arrow, ctx).declarations, ctx.fields;
    ArrowFree(arrow, x, e, d, f);
    AddNamesOne(FreeList(Children(arrow), d, f));
  }

  lemma CompareCallFree(d: set<string>)
    ensures FreeList(Children(CompareCall()), d, {}) == []
  {
    IdentifiersFree(Children(CompareCall()), d);
  }

  /** Inside the arrow function `storeIndex` is declared, so nothing is
      hoisted. */
  lemma StepHoistsNothing(ctx: Context)
    requires "storeIndex" in ctx.variables && ctx.fields == {}
    ensures Hoisted(PartitionStep(), ctx) == []
  {
    CompareCallFree(EnterFunction(PartitionStep(), ctx).declarations);
    ArrowHoists(PartitionStep(), "storeIndex", CompareCall(), ctx);
  }

  /** Without the earlier assignment the arrow function hoists its own
      `storeIndex`. */
  lemma StepHoistsWhenUnassigned(ctx: Context)
    requires "storeIndex" !in ctx.variables && "storeIndex" !in ctx.declarations && ctx.fields == {}
    ensures Hoisted(PartitionStep(), ctx) == ["storeIndex"]
  {
    CompareCallFree(EnterFunction(PartitionStep(), ctx).declarations);
    ArrowHoists(PartitionStep(), "storeIndex", CompareCall(), ctx);
  }

  /** An expression statement passes through unchanged when its expression
      does. */
  lemma ExprStatementUnchanged(e: Node, ctx: Context)
    requires ProcessAst(e, ctx) == Ok(Processed(e, ctx))
    ensures ProcessAst(ExprStatement(e), ctx) == Ok(Processed(ExprStatement(e), ctx))
  {
    assert Children(ExprStatement(e)) == [e];
    CloneUnchanged(ExprStatement(e), ctx);
    assert ProcessAst(ExprStatement(e), ctx) == CloneAst(ExprStatement(e), ctx);
  }

  /** The assignment `x = e` passes through unchanged when `x` is declared
      and `e` passes through unchanged. */
  lemma AssignmentUnchanged(x: string, e: Node, ctx: Context)
    requires ctx.fields == {} && x in ctx.declarations
    requires ProcessAst(e, ctx) == Ok(Processed(e, ctx))
    ensures ProcessAst(Assignment(Id(x), e), ctx) == Ok(Processed(Assignment(Id(x), e), ctx))
  {
    var asg := Assignment(Id(x), e);
    assert ProcessAst(Id(x), ctx) == Ok(Processed(Id(x), ctx));
    assert Children(asg) == [Id(x), e];
    CloneUnchanged(asg, ctx);
    assert ProcessAst(asg, ctx) == CloneAst(asg, ctx);
  }

  /** `(i) => { x = e }` passes through unchanged when `x` is declared in
      it and `e` passes through unchanged: nothing is hoisted. */
  lemma ArrowUnchanged(arrow: Node, x: string, e: Node, ctx: Context)
    requires arrow == Function(Arrow, [], [Id("i")], [ExprStatement(Assignment(Id(x), e))], false, {})
    requires ctx.fields == {} && x in EnterFunction(arrow, ctx).declarations
    requires ProcessAst(e, EnterFunction(arrow, ctx)) == Ok(Processed(e, EnterFunction(arrow, ctx)))
    ensures ProcessAst(arrow, ctx) == Ok(Processed(arrow, ctx))
  {
    var inner := EnterFunction(arrow, ctx);
    AssignmentUnchanged(x, e, inner);
    ExprStatementUnchanged(Assignment(Id(x), e), inner);
    assert ProcessAst(Id("i"), inner) == Ok(Processed(Id("i"), inner));
    assert Children(arrow) == [Id("i"), ExprStatement(Assignment(Id(x), e))];
    ListUnchanged(Children(arrow), inner);
    RebuildChildren(arrow);
  }

  /** A call `name(args)` passes through unchanged when its arguments do. */
  lemma CallUnchanged(name: string, args: seq<Node>, ctx: Context)
    requires name !in ctx.fields
    requires ProcessList(args, ctx) == Ok(ProcessedList(args, ctx))
    ensures ProcessAst(Call(Id(name), args), ctx) == Ok(Processed(Call(Id(name), args), ctx))
  {
    var call := Call(Id(name), args);
    var cs := Children(call);
    assert cs == [Id(name)] + args && cs[0] == Id(name) && cs[1..] == args;
    assert ProcessAst(Id(name), ctx) == Ok(Processed(Id(name), ctx));
    assert ProcessList(cs, ctx) == Ok(ProcessedList(cs, ctx));
    RebuildChildren(call);
    assert ProcessAst(call, ctx) == CloneAst(call, ctx);
  }

  /** A call statement `name(args)` passes through unchanged when its
      arguments do. */
  lemma CallStatementUnchanged(name: string, args: seq<Node>, ctx: Context)
    requires ctx.fields == {}
    requires forall i :: 0 <= i < |args| ==> ProcessAst(args[i], ctx) == Ok(Processed(args[i], ctx))
    ensures ProcessAst(CallStatement(name, args), ctx) == Ok(Processed(CallStatement(name, args), ctx))
  {
    ListUnchanged(args, ctx);
    CallUnchanged(name, args, ctx);
    ExprStatementUnchanged(Call(Id(name), args), ctx);
  }

  /** The loop statement passes through unchanged and leaves the context as
      it was. */
  lemma StoreIndexNotRehoisted(ctx: Context)
    requires "storeIndex" in ctx.variables && ctx.fields == {}
    ensures ProcessAst(PartitionLoop(), ctx) == Ok(Processed(PartitionLoop(), ctx))
  {
    var arrow := PartitionStep();
    var inner := EnterFunction(arrow, ctx);
    CompareCallUnchanged(inner);
    ArrowUnchanged(arrow, "storeIndex", CompareCall(), ctx);
    var args := [Id("begin"), Id("last"), arrow];
    assert ProcessAst(Id("begin"), ctx) == Ok(Processed(Id("begin"), ctx));
    assert ProcessAst(Id("last"), ctx) == Ok(Processed(Id("last"), ctx));
    CallStatementUnchanged("loop", args, ctx);
  }
}
