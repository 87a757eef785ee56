/** The generic syntax tree the compiler consumes and produces.

    The parser hands the compiler a dynamically typed tree whose nodes are
    objects with a `type` tag.  Here it is a closed datatype holding exactly
    the node kinds the core inspects; every other kind is `Other`, which keeps
    its children in source order so that passes can walk through it. */
module Syntax {
  import opened Errors

  datatype Literal = Str(s: string) | Num(n: int) | Bool(b: bool) | Null

  datatype FunctionKind = Declaration | Expression | Arrow

  datatype TerminalKind = ReturnStmt | ThrowStmt

  datatype Node =
    | Identifier(name: string)
    | Lit(literal: Literal)
      /** `base.property`, or `base[property]` when `computed` */
    | Member(base: Node, property: Node, computed: bool)
      /** `left = right` */
    | Assignment(left: Node, right: Node)
    | Await(argument: Node)
    | Call(callee: Node, arguments: seq<Node>)
    | ExprStatement(expression: Node)
      /** `return` / `throw` with zero or one argument */
    | Terminal(terminal: TerminalKind, result: seq<Node>)
      /** A function.  `id` holds the name identifier when there is one;
          `exprBody` marks an arrow function whose body is a single
          expression (`body` then holds that expression) rather than a block;
          `declarations` is the set of var-declared names stamped on the node
          by the declaration pre-pass. */
    | Function(kind: FunctionKind, id: seq<Node>, params: seq<Node>, body: seq<Node>,
               exprBody: bool, declarations: set<string>)
      /** `var d1, d2, ...` */
    | VarDecl(declarators: seq<Node>)
      /** one `target = init` of a var declaration; `init` holds zero or one
          initialiser */
    | Declarator(target: Node, init: seq<Node>)
    | ObjectExpr(properties: seq<Node>)
      /** one `key: value` entry of an object expression */
    | Property(key: Node, value: Node)
      /** `if (test) { consequent } else { alternate }`; `hasElse` is false
          when the alternate is absent */
    | If(test: Node, consequent: seq<Node>, alternate: seq<Node>, hasElse: bool)
      /** the other restricted statements: for, for-in, for-of, switch */
    | Loop(loop: Restricted, body: seq<Node>)
      /** every other node kind, tagged by its type, with its children */
    | Other(tag: string, children: seq<Node>)

  predicate IsFunction(n: Node) { n.Function? }

  /** The call `name(arguments)` that an expression statement makes, when its
      callee is a plain identifier. */
  datatype CallInfo = CallInfo(name: string, arguments: seq<Node>)

  /** getCall: recognises `name(args)` as a whole statement. */
  function GetCall(n: Node): (r: Option<CallInfo>)
    ensures r.Some? <==> n.ExprStatement? && n.expression.Call? && n.expression.callee.Identifier?
    ensures r.Some? ==> n == ExprStatement(Call(Identifier(r.value.name), r.value.arguments))
  {
    if !n.ExprStatement? then None
    else if !n.expression.Call? then None
    else if !n.expression.callee.Identifier? then None
    else Some(CallInfo(n.expression.callee.name, n.expression.arguments))
  }

  /** The statement `name(args)`, the form GetCall recognises. */
  function CallStatement(name: string, args: seq<Node>): Node
  {
    ExprStatement(Call(Identifier(name), args))
  }

  /** Number of nodes in a tree, the termination measure of the passes. */
  function Size(n: Node): (s: nat)
    ensures s >= 1
  {
    match n
    case Identifier(_) => 1
    case Lit(_) => 1
    case Member(o, p, _) => 1 + Size(o) + Size(p)
    case Assignment(l, r) => 1 + Size(l) + Size(r)
    case Await(a) => 1 + Size(a)
    case Call(c, args) => 1 + Size(c) + SizeList(args)
    case ExprStatement(e) => 1 + Size(e)
    case Terminal(_, a) => 1 + SizeList(a)
    case Function(_, id, ps, b, _, _) => 1 + SizeList(id) + SizeList(ps) + SizeList(b)
    case VarDecl(ds) => 1 + SizeList(ds)
    case Declarator(id, init) => 1 + Size(id) + SizeList(init)
    case ObjectExpr(ps) => 1 + SizeList(ps)
    case Property(k, v) => 1 + Size(k) + Size(v)
    case If(t, c, a, _) => 1 + Size(t) + SizeList(c) + SizeList(a)
    case Loop(_, b) => 1 + SizeList(b)
    case Other(_, cs) => 1 + SizeList(cs)
  }

  function SizeList(ns: seq<Node>): (s: nat)
  {
    if ns == [] then 0 else Size(ns[0]) + SizeList(ns[1..])
  }

  lemma {:induction false} SizeListAppend(a: seq<Node>, b: seq<Node>)
    ensures SizeList(a + b) == SizeList(a) + SizeList(b)
  {
    if a == [] {
      assert a + b == b;
    } else {
      assert (a + b)[1..] == a[1..] + b;
      SizeListAppend(a[1..], b);
    }
  }

  lemma {:induction false} ElementsSmaller(ns: seq<Node>)
    ensures forall i :: 0 <= i < |ns| ==> Size(ns[i]) <= SizeList(ns)
  {
    if ns != [] {
      ElementsSmaller(ns[1..]);
      assert forall i :: 1 <= i < |ns| ==> ns[i] == ns[1..][i - 1];
    }
  }

  /** The child nodes of a node, in the order of its fields (the order in
      which a generic walk over the node's keys meets them). */
  function Children(n: Node): seq<Node>
  {
    match n
    case Identifier(_) => []
    case Lit(_) => []
    case Member(o, p, _) => [o, p]
    case Assignment(l, r) => [l, r]
    case Await(a) => [a]
    case Call(c, args) => [c] + args
    case ExprStatement(e) => [e]
    case Terminal(_, a) => a
    case Function(_, id, ps, b, _, _) => id + ps + b
    case VarDecl(ds) => ds
    case Declarator(t, init) => [t] + init
    case ObjectExpr(ps) => ps
    case Property(k, v) => [k, v]
    case If(t, c, a, _) => [t] + c + a
    case Loop(_, b) => b
    case Other(_, cs) => cs
  }

  lemma SizeListSingle(x: Node)
    ensures SizeList([x]) == Size(x)
  {
    assert [x][1..] == [];
  }

  lemma SizeListPair(x: Node, y: Node)
    ensures SizeList([x, y]) == Size(x) + Size(y)
  {
    assert [x, y] == [x] + [y];
    SizeListAppend([x], [y]);
    SizeListSingle(x);
    SizeListSingle(y);
  }

  /** The children together are smaller than the node: the measure that
      makes walks over the tree terminate. */
  lemma ChildrenSmaller(n: Node)
    ensures SizeList(Children(n)) == Size(n) - 1
  {
    match n
    case Member(o, p, _) => SizeListPair(o, p);
    case Assignment(l, r) => SizeListPair(l, r);
    case Await(a) => SizeListSingle(a);
    case Call(c, args) => SizeListSingle(c); SizeListAppend([c], args);
    case ExprStatement(e) => SizeListSingle(e);
    case Function(_, id, ps, b, _, _) => SizeListAppend(id, ps); SizeListAppend(id + ps, b);
    case Declarator(t, init) => SizeListSingle(t); SizeListAppend([t], init);
    case Property(k, v) => SizeListPair(k, v);
    case If(t, c, a, _) => SizeListSingle(t); SizeListAppend([t], c); SizeListAppend([t] + c, a);
    case _ =>
  }

  /** The node with its children replaced, in the order Children lists
      them; everything else is kept. */
  function Rebuild(n: Node, cs: seq<Node>): (r: Node)
    requires |cs| == |Children(n)|
    ensures Children(r) == cs
    ensures n.Function? ==> r.Function? && r.kind == n.kind && r.exprBody == n.exprBody &&
                            r.declarations == n.declarations
    ensures n.Member? ==> r.Member? && r.computed == n.computed
  {
    match n
    case Identifier(_) => n
    case Lit(_) => n
    case Member(_, _, computed) => Member(cs[0], cs[1], computed)
    case Assignment(_, _) => Assignment(cs[0], cs[1])
    case Await(_) => Await(cs[0])
    case Call(_, _) => Call(cs[0], cs[1..])
    case ExprStatement(_) => ExprStatement(cs[0])
    case Terminal(kind, _) => Terminal(kind, cs)
    case Function(kind, id, ps, _, exprBody, decls) =>
      assert cs == cs[..|id|] + cs[|id|..|id| + |ps|] + cs[|id| + |ps|..];
      Function(kind, cs[..|id|], cs[|id|..|id| + |ps|], cs[|id| + |ps|..], exprBody, decls)
    case VarDecl(_) => VarDecl(cs)
    case Declarator(_, _) => Declarator(cs[0], cs[1..])
    case ObjectExpr(_) => ObjectExpr(cs)
    case Property(_, _) => Property(cs[0], cs[1])
    case If(_, c, a, hasElse) =>
      assert cs == [cs[0]] + cs[1..1 + |c|] + cs[1 + |c|..];
      If(cs[0], cs[1..1 + |c|], cs[1 + |c|..], hasElse)
    case Loop(kind, _) => Loop(kind, cs)
    case Other(tag, _) => Other(tag, cs)
  }

  /** Rebuilding keeps the kind of the node, and a leaf as it is. */
  lemma RebuildKind(n: Node, cs: seq<Node>)
    requires |cs| == |Children(n)|
    ensures Rebuild(n, cs).Member? == n.Member? && Rebuild(n, cs).Identifier? == n.Identifier?
    ensures Rebuild(n, cs).Function? == n.Function? && Rebuild(n, cs).VarDecl? == n.VarDecl?
    ensures Rebuild(n, cs).Declarator? == n.Declarator?
    ensures Children(n) == [] ==> Rebuild(n, cs) == n
  {
  }

  /** Rebuilding with the node's own children gives the node back. */
  lemma RebuildChildren(n: Node)
    ensures Rebuild(n, Children(n)) == n
  {
    match n
    case Function(_, id, ps, b, _, _) =>
      var cs := Children(n);
      assert cs[..|id|] == id && cs[|id|..|id| + |ps|] == ps && cs[|id| + |ps|..] == b;
    case If(t, c, a, _) =>
      var cs := Children(n);
      assert cs[1..1 + |c|] == c && cs[1 + |c|..] == a;
    case Call(c, args) =>
      assert Children(n)[1..] == args;
    case Declarator(t, init) =>
      assert Children(n)[1..] == init;
    case _ =>
  }
}
