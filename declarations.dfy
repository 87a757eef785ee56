/** The declaration pre-pass: before the scope pass, every function node of
    the tree is stamped with the set of names its body declares with `var`,
    and the names declared at the top level are added to the set the caller
    passes in.  A nested function starts a fresh set, so its `var`s are not
    seen by the enclosing function. */
module Declarations {
  import opened Syntax

  /** The name a declarator declares.  A destructuring target has no name,
      and the source then records the key "undefined". */
  function DeclaredName(d: Node): string
  {
    if d.Declarator? && d.target.Identifier? then d.target.name else "undefined"
  }

  function DeclaredNames(ds: seq<Node>): set<string>
  {
    set i | 0 <= i < |ds| :: DeclaredName(ds[i])
  }

  datatype Collected = Collected(node: Node, declarations: set<string>)

  datatype CollectedList = CollectedList(nodes: seq<Node>, declarations: set<string>)

  /** collectDeclarations: the stamped copy of `n` and the caller's set with
      the names `n` declares added. */
  function Collect(n: Node, declarations: set<string>): (r: Collected)
    decreases Size(n), 1
  {
    ChildrenSmaller(n);
    if n.Function? then
      var inner := CollectList(Children(n), {});
      var copy := Rebuild(n, inner.nodes);
      Collected(Function(copy.kind, copy.id, copy.params, copy.body, copy.exprBody, inner.declarations), declarations)
    else
      var here := if n.VarDecl? then declarations + DeclaredNames(n.declarators) else declarations;
      var inner := CollectList(Children(n), here);
      Collected(Rebuild(n, inner.nodes), inner.declarations)
  }

  function CollectList(ns: seq<Node>, declarations: set<string>): (r: CollectedList)
    ensures |r.nodes| == |ns|
    decreases SizeList(ns), 2
  {
    if ns == [] then CollectedList([], declarations)
    else
      var first := Collect(ns[0], declarations);
      var rest := CollectList(ns[1..], first.declarations);
      CollectedList([first.node] + rest.nodes, rest.declarations)
  }

  // ---------------------------------------------------------------------
  // Reference definitions

  /** The names declared with `var` in `n` outside nested functions. */
  function OwnVars(n: Node): set<string>
    decreases Size(n), 1
  {
    ChildrenSmaller(n);
    if n.Function? then {}
    else (if n.VarDecl? then DeclaredNames(n.declarators) else {}) + OwnVarsList(Children(n))
  }

  function OwnVarsList(ns: seq<Node>): set<string>
    decreases SizeList(ns), 2
  {
    if ns == [] then {} else OwnVars(ns[0]) + OwnVarsList(ns[1..])
  }

  /** Every function node in `n` carries exactly the names its own body
      declares. */
  predicate Stamped(n: Node)
    decreases Size(n)
  {
    ChildrenSmaller(n);
    ElementsSmaller(Children(n));
    (n.Function? ==> n.declarations == OwnVarsList(Children(n))) &&
    forall i :: 0 <= i < |Children(n)| ==> Stamped(Children(n)[i])
  }

  // ---------------------------------------------------------------------
  // Properties

  /** The pass adds exactly the names `n` declares outside nested functions. */
  lemma {:induction false} CollectAdds(n: Node, declarations: set<string>)
    ensures Collect(n, declarations).declarations == declarations + OwnVars(n)
    decreases Size(n), 1
  {
    ChildrenSmaller(n);
    if !n.Function? {
      var here := if n.VarDecl? then declarations + DeclaredNames(n.declarators) else declarations;
      CollectListAdds(Children(n), here);
    }
  }

  lemma {:induction false} CollectListAdds(ns: seq<Node>, declarations: set<string>)
    ensures CollectList(ns, declarations).declarations == declarations + OwnVarsList(ns)
    decreases SizeList(ns), 2
  {
    if ns != [] {
      CollectAdds(ns[0], declarations);
      CollectListAdds(ns[1..], Collect(ns[0], declarations).declarations);
    }
  }

  /** Stamping changes neither the kind of a node nor the names it declares. */
  lemma {:induction false} CollectKeepsVars(n: Node, declarations: set<string>)
    ensures OwnVars(Collect(n, declarations).node) == OwnVars(n)
    ensures DeclaredName(Collect(n, declarations).node) == DeclaredName(n)
    ensures Collect(n, declarations).node.Function? == n.Function?
    ensures Children(Collect(n, declarations).node) == CollectedChildren(n, declarations)
    decreases Size(n), 1
  {
    ChildrenSmaller(n);
    var r := Collect(n, declarations).node;
    if n.Function? {
      var inner := CollectList(Children(n), {});
      var copy := Rebuild(n, inner.nodes);
      assert Children(r) == Children(copy);
    } else {
      var here := if n.VarDecl? then declarations + DeclaredNames(n.declarators) else declarations;
      var inner := CollectList(Children(n), here);
      CollectListKeepsVars(Children(n), here);
      RebuildKind(n, inner.nodes);
      if n.VarDecl? {
        assert r.declarators == inner.nodes;
      } else if n.Declarator? {
        assert r.target == inner.nodes[0] && Children(n)[0] == n.target;
      }
    }
  }

  /** The stamped children of `n`, with the set they are collected into. */
  function CollectedChildren(n: Node, declarations: set<string>): seq<Node>
  {
    var here := if n.Function? then {} else if n.VarDecl? then declarations + DeclaredNames(n.declarators) else declarations;
    CollectList(Children(n), here).nodes
  }

  lemma {:induction false} CollectListKeepsVars(ns: seq<Node>, declarations: set<string>)
    ensures OwnVarsList(CollectList(ns, declarations).nodes) == OwnVarsList(ns)
    ensures DeclaredNames(CollectList(ns, declarations).nodes) == DeclaredNames(ns)
    decreases SizeList(ns), 2
  {
    var nodes := CollectList(ns, declarations).nodes;
    if ns != [] {
      var first := Collect(ns[0], declarations);
      CollectKeepsVars(ns[0], declarations);
      CollectListKeepsVars(ns[1..], first.declarations);
      assert nodes[1..] == CollectList(ns[1..], first.declarations).nodes;
      DeclaredNamesCons(ns);
      DeclaredNamesCons(nodes);
    }
  }

  lemma DeclaredNamesCons(ds: seq<Node>)
    requires ds != []
    ensures DeclaredNames(ds) == {DeclaredName(ds[0])} + DeclaredNames(ds[1..])
  {
    forall x | x in DeclaredNames(ds)
      ensures x in {DeclaredName(ds[0])} + DeclaredNames(ds[1..])
    {
      var i :| 0 <= i < |ds| && DeclaredName(ds[i]) == x;
      if i > 0 {
        assert ds[1..][i - 1] == ds[i];
      }
    }
    forall x | x in DeclaredNames(ds[1..])
      ensures x in DeclaredNames(ds)
    {
      var i :| 0 <= i < |ds[1..]| && DeclaredName(ds[1..][i]) == x;
      assert ds[i + 1] == ds[1..][i];
    }
  }

  /** After the pass every function node carries the names its body declares. */
  lemma {:induction false} CollectStamps(n: Node, declarations: set<string>)
    ensures Stamped(Collect(n, declarations).node)
    decreases Size(n), 1
  {
    ChildrenSmaller(n);
    var r := Collect(n, declarations).node;
    var here := if n.Function? then {} else if n.VarDecl? then declarations + DeclaredNames(n.declarators) else declarations;
    CollectListStamps(Children(n), here);
    CollectKeepsVars(n, declarations);
    if n.Function? {
      CollectListKeepsVars(Children(n), {});
      CollectListAdds(Children(n), {});
    }
  }

  lemma {:induction false} CollectListStamps(ns: seq<Node>, declarations: set<string>)
    ensures forall i :: 0 <= i < |ns| ==> Stamped(CollectList(ns, declarations).nodes[i])
    decreases SizeList(ns), 2
  {
    if ns != [] {
      var first := Collect(ns[0], declarations);
      CollectStamps(ns[0], declarations);
      CollectListStamps(ns[1..], first.declarations);
      var nodes := CollectList(ns, declarations).nodes;
      assert forall i :: 1 <= i < |ns| ==> nodes[i] == CollectList(ns[1..], first.declarations).nodes[i - 1];
    }
  }

  /** Stamping a stamped tree again changes nothing. */
  lemma {:induction false} CollectStampedUnchanged(n: Node, declarations: set<string>)
    requires Stamped(n)
    ensures Collect(n, declarations).node == n
    decreases Size(n), 1
  {
    ChildrenSmaller(n);
    ElementsSmaller(Children(n));
    var here := if n.Function? then {} else if n.VarDecl? then declarations + DeclaredNames(n.declarators) else declarations;
    CollectListStampedUnchanged(Children(n), here);
    RebuildChildren(n);
    if n.Function? {
      CollectListAdds(Children(n), {});
    }
  }

  lemma {:induction false} CollectListStampedUnchanged(ns: seq<Node>, declarations: set<string>)
    requires forall i :: 0 <= i < |ns| ==> Stamped(ns[i])
    ensures CollectList(ns, declarations).nodes == ns
    decreases SizeList(ns), 2
  {
    if ns != [] {
      ElementsSmaller(ns);
      CollectStampedUnchanged(ns[0], declarations);
      CollectListStampedUnchanged(ns[1..], Collect(ns[0], declarations).declarations);
      assert [ns[0]] + ns[1..] == ns;
    }
  }
}
