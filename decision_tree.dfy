/** Scenario merge and code emission.

    Every plot of a section becomes a chain of nodes, one per statement: a
    `yes(c)` / `no(c)` statement becomes a rule node testing `c`, every other
    statement an action node.  The chains are merged into one decision tree
    and the tree is lowered into nested `if` / `else` statements.

    The rendered text of an expression (what the code generator prints for
    it) is the only thing merging compares; it is the parameter `render`,
    about which nothing is assumed. */
module DecisionTree {
  import opened Errors
  import opened Syntax
  import opened Sections

  datatype Item =
    | RuleItem(condition: Polarity, expression: Node, text: string)
    | ActionItem(expression: Node, text: string)

  /** A node of the decision tree.  `down` continues the plot; `right` of a
      rule holds the scenarios in which the rule's test has the opposite
      outcome.  Action nodes never get a `right`. */
  datatype DNode = DNode(item: Item, down: Option<DNode>, right: Option<DNode>)

  type Render = Node -> string

  // ---------------------------------------------------------------------
  // Building chains

  /** convertExpressionToNode: one statement as a detached node. */
  function ConvertExpressionToNode(render: Render, expr: Node): (r: Result<DNode>)
    ensures r.Ok? ==> r.value.down.None? && r.value.right.None?
    ensures r.Ok? && r.value.item.RuleItem? <==>
              GetCall(expr).Some? && GetCall(expr).value.name in ["yes", "no"] &&
              |GetCall(expr).value.arguments| == 1
    ensures r.Fail? <==>
              GetCall(expr).Some? && GetCall(expr).value.name in ["yes", "no"] &&
              |GetCall(expr).value.arguments| != 1
    ensures r.Fail? ==> r.error == RuleArity
    ensures r.Ok? && r.value.item.ActionItem? ==> r.value.item == ActionItem(expr, render(expr))
    ensures r.Ok? ==> r.value.item.text == render(r.value.item.expression)
  {
    match GetCall(expr)
    case Some(call) =>
      if call.name == "yes" || call.name == "no" then
        if |call.arguments| != 1 then Fail(RuleArity)
        else
          var test := call.arguments[0];
          Ok(DNode(RuleItem(if call.name == "yes" then Yes else No, test, render(test)), None, None))
      else Ok(DNode(ActionItem(expr, render(expr)), None, None))
    case None => Ok(DNode(ActionItem(expr, render(expr)), None, None))
  }

  /** A chain: nodes linked by `down` only. */
  predicate IsChain(t: Option<DNode>)
  {
    t.Some? ==> t.value.right.None? && IsChain(t.value.down)
  }

  /** The items of the nodes along `down`, from the top. */
  function Items(t: Option<DNode>): seq<Item>
  {
    if t.None? then [] else [t.value.item] + Items(t.value.down)
  }

  /** convertToNodeList: the chain of a plot body, or None for an empty
      body; the first statement that cannot be converted is the failure. */
  function ConvertToNodeList(render: Render, body: seq<Node>): Result<Option<DNode>>
  {
    if body == [] then Ok(None)
    else
      var head :- ConvertExpressionToNode(render, body[0]);
      var rest :- ConvertToNodeList(render, body[1..]);
      Ok(Some(head.(down := rest)))
  }

  /** The chain holds one node per statement, in order, linked by `down`;
      the conversion fails exactly when a statement cannot be converted, with
      that statement's failure; an empty body gives no chain. */
  lemma {:induction false} ConvertMeaning(render: Render, body: seq<Node>)
    ensures var r := ConvertToNodeList(render, body);
            (r.Ok? <==> forall i :: 0 <= i < |body| ==> ConvertExpressionToNode(render, body[i]).Ok?) &&
            (r.Fail? ==> exists i :: 0 <= i < |body| && ConvertExpressionToNode(render, body[i]) == Fail(r.error)) &&
            (r.Ok? ==> IsChain(r.value)) &&
            (r.Ok? && (forall i :: 0 <= i < |body| ==> !body[i].If?) ==> Sound(r.value, render)) &&
            (r.Ok? ==> (r.value.None? <==> body == [])) &&
            (r.Ok? ==> |Items(r.value)| == |body|) &&
            (r.Ok? ==> forall i :: 0 <= i < |body| ==> Items(r.value)[i] == ConvertExpressionToNode(render, body[i]).value.item)
  {
    if body != [] {
      ConvertMeaning(render, body[1..]);
      assert forall i :: 1 <= i < |body| ==> body[i] == body[1..][i - 1];
    }
  }

  // ---------------------------------------------------------------------
  // Merging

  /** Two nodes may be merged when they are of the same kind and print the
      same. */
  predicate Matches(x: Item, y: Item)
  {
    x.RuleItem? == y.RuleItem? && x.text == y.text
  }

  /** mergeNodes: merges the chain `addition` into the tree `main`.
      Matching rules of equal polarity and matching actions are merged along
      `down`; for a rule of the opposite polarity the rest of the chain goes
      to `right`, into the existing subtree if there is one.  Merging stops
      as soon as either side ends. */
  function MergeNodes(main: Option<DNode>, addition: Option<DNode>): (r: Result<Option<DNode>>)
    ensures main.None? || addition.None? ==> r == Ok(main)
    ensures main.Some? && addition.Some? && !Matches(main.value.item, addition.value.item) ==>
              r == Fail(Coded(SON0022))
    ensures r.Fail? ==> r.error == Coded(SON0022)
    decreases addition
  {
    if main.None? || addition.None? then Ok(main)
    else
      var m, a := main.value, addition.value;
      if !Matches(m.item, a.item) then Fail(Coded(SON0022))
      else if m.item.RuleItem? && m.item.condition != a.item.condition then
        if m.right.Some? then
          var right :- MergeNodes(m.right, a.down);
          Ok(Some(m.(right := right)))
        else
          Ok(Some(m.(right := a.down)))
      else
        var down :- MergeNodes(m.down, a.down);
        Ok(Some(m.(down := down)))
  }

  /** `b` is `a` with some previously empty `right` fields filled in. */
  predicate Extends(a: Option<DNode>, b: Option<DNode>)
  {
    if a.None? then b.None?
    else
      b.Some? && b.value.item == a.value.item && Extends(a.value.down, b.value.down) &&
      (a.value.right.None? || Extends(a.value.right, b.value.right))
  }

  lemma {:induction false} ExtendsReflexive(a: Option<DNode>)
    ensures Extends(a, a)
  {
    if a.Some? {
      ExtendsReflexive(a.value.down);
      ExtendsReflexive(a.value.right);
    }
  }

  lemma {:induction false} ExtendsTransitive(a: Option<DNode>, b: Option<DNode>, c: Option<DNode>)
    requires Extends(a, b) && Extends(b, c)
    ensures Extends(a, c)
  {
    if a.Some? {
      ExtendsTransitive(a.value.down, b.value.down, c.value.down);
      if a.value.right.Some? {
        ExtendsTransitive(a.value.right, b.value.right, c.value.right);
      }
    }
  }

  /** The only thing merging writes is a previously empty `right` of a rule
      of `main`: every node of `main` is kept with its item. */
  lemma {:induction false} MergeExtends(main: Option<DNode>, addition: Option<DNode>)
    requires MergeNodes(main, addition).Ok?
    ensures Extends(main, MergeNodes(main, addition).value)
    decreases addition
  {
    if main.None? || addition.None? {
      ExtendsReflexive(main);
    } else {
      var m, a := main.value, addition.value;
      if m.item.RuleItem? && m.item.condition != a.item.condition {
        ExtendsReflexive(m.down);
        if m.right.Some? {
          MergeExtends(m.right, a.down);
        }
      } else {
        MergeExtends(m.down, a.down);
        ExtendsReflexive(m.right);
      }
    }
  }

  /** For a rule of the opposite polarity with no `right` yet, the rest of
      the chain becomes `right`. */
  lemma OppositeRuleFillsRight(m: DNode, a: DNode)
    requires m.item.RuleItem? && Matches(m.item, a.item) && m.item.condition != a.item.condition
    requires m.right.None?
    ensures MergeNodes(Some(m), Some(a)) == Ok(Some(m.(right := a.down)))
  {
  }

  /** Merging puts together parts of both trees only. */
  lemma {:induction false} MergeKeepsSound(main: Option<DNode>, addition: Option<DNode>, render: Render)
    requires Sound(main, render) && Sound(addition, render)
    requires MergeNodes(main, addition).Ok?
    ensures Sound(MergeNodes(main, addition).value, render)
    decreases addition
  {
    if main.Some? && addition.Some? {
      var m, a := main.value, addition.value;
      if m.item.RuleItem? && m.item.condition != a.item.condition {
        if m.right.Some? {
          MergeKeepsSound(m.right, a.down, render);
        }
      } else {
        MergeKeepsSound(m.down, a.down, render);
      }
    }
  }

  /** The tree with every `right` removed: the chain of its first plot. */
  function Spine(t: Option<DNode>): (c: Option<DNode>)
    ensures IsChain(c)
  {
    if t.None? then None else Some(DNode(t.value.item, Spine(t.value.down), None))
  }

  /** Merging again the chain that runs down the tree changes nothing. */
  lemma {:induction false} MergeSpineUnchanged(main: Option<DNode>)
    ensures MergeNodes(main, Spine(main)) == Ok(main)
  {
    if main.Some? {
      MergeSpineUnchanged(main.value.down);
    }
  }

  // ---------------------------------------------------------------------
  // Merging the plots of a section

  /** The fold of mergeScenarios from plot index i on, starting from `root`. */
  function MergeFrom(render: Render, root: Option<DNode>, plots: seq<Plot>): (r: Result<Option<DNode>>)
    decreases |plots|
  {
    if plots == [] then Ok(root)
    else
      var next :- ConvertToNodeList(render, plots[0].body);
      var merged :- MergeNodes(root, next);
      MergeFrom(render, merged, plots[1..])
  }

  /** mergeScenarios, as a value: no tree for no plots, otherwise the chain
      of the first plot with every later plot merged into it in order. */
  function MergeScenariosSpec(render: Render, plots: seq<Plot>): Result<Option<DNode>>
  {
    if plots == [] then Ok(None)
    else
      var root :- ConvertToNodeList(render, plots[0].body);
      MergeFrom(render, root, plots[1..])
  }

  /** mergeScenarios: converts every plot and merges it into the tree built
      so far. */
  method MergeScenarios(render: Render, plots: seq<Plot>) returns (r: Result<Option<DNode>>)
    ensures r == MergeScenariosSpec(render, plots)
  {
    if |plots| == 0 {
      return Ok(None);
    }
    var first := ConvertToNodeList(render, plots[0].body);
    if first.Fail? {
      return Fail(first.error);
    }
    var root := first.value;
    var i := 1;
    while i < |plots|
      invariant 1 <= i <= |plots|
      invariant MergeScenariosSpec(render, plots) == MergeFrom(render, root, plots[i..])
    {
      assert plots[i..][1..] == plots[i + 1..];
      var next := ConvertToNodeList(render, plots[i].body);
      if next.Fail? {
        return Fail(next.error);
      }
      var merged := MergeNodes(root, next.value);
      if merged.Fail? {
        return Fail(merged.error);
      }
      root := merged.value;
      i := i + 1;
    }
    return Ok(root);
  }

  /** Folding only extends the tree it starts from. */
  lemma {:induction false} MergeFromExtends(render: Render, root: Option<DNode>, plots: seq<Plot>)
    requires MergeFrom(render, root, plots).Ok?
    ensures Extends(root, MergeFrom(render, root, plots).value)
    decreases |plots|
  {
    if plots == [] {
      ExtendsReflexive(root);
    } else {
      var next := ConvertToNodeList(render, plots[0].body).value;
      var merged := MergeNodes(root, next).value;
      MergeExtends(root, next);
      MergeFromExtends(render, merged, plots[1..]);
      ExtendsTransitive(root, merged, MergeFrom(render, root, plots).value);
    }
  }

  /** Once the tree is empty nothing is merged into it any more. */
  lemma {:induction false} MergeFromEmpty(render: Render, plots: seq<Plot>)
    requires MergeFrom(render, None, plots).Ok?
    ensures MergeFrom(render, None, plots).value == None
  {
    if plots != [] {
      MergeFromEmpty(render, plots[1..]);
    }
  }

  /** The tree of a section starts as its first plot: every run of the first
      plot's chain is a prefix of the same run of the tree.  When the first
      plot is empty, the later plots are converted but ignored. */
  lemma MergeScenariosKeepsFirst(render: Render, plots: seq<Plot>, truth: Truth)
    requires plots != [] && MergeScenariosSpec(render, plots).Ok?
    ensures var first := ConvertToNodeList(render, plots[0].body);
            first.Ok? && Extends(first.value, MergeScenariosSpec(render, plots).value) &&
            Prefix(Run(first.value, truth).printed, Run(MergeScenariosSpec(render, plots).value, truth).printed)
    ensures plots[0].body == [] ==> MergeScenariosSpec(render, plots).value == None
  {
    var root := ConvertToNodeList(render, plots[0].body).value;
    MergeFromExtends(render, root, plots[1..]);
    ExtendsRunsPrefix(root, MergeScenariosSpec(render, plots).value, truth);
    if plots[0].body == [] {
      assert root == None;
      MergeFromEmpty(render, plots[1..]);
    }
  }

  /** The trees of merged plots are sound when no plot statement is an
      `if`. */
  predicate NoIfs(plots: seq<Plot>)
  {
    forall p, i :: p in plots && 0 <= i < |p.body| ==> !p.body[i].If?
  }

  lemma {:induction false} MergeFromSound(render: Render, root: Option<DNode>, plots: seq<Plot>)
    requires Sound(root, render) && NoIfs(plots)
    requires MergeFrom(render, root, plots).Ok?
    ensures Sound(MergeFrom(render, root, plots).value, render)
    decreases |plots|
  {
    if plots != [] {
      var next := ConvertToNodeList(render, plots[0].body).value;
      assert plots[0] in plots;
      ConvertMeaning(render, plots[0].body);
      MergeKeepsSound(root, next, render);
      assert forall p :: p in plots[1..] ==> p in plots;
      MergeFromSound(render, MergeNodes(root, next).value, plots[1..]);
    }
  }

  lemma MergeScenariosSound(render: Render, plots: seq<Plot>)
    requires NoIfs(plots) && MergeScenariosSpec(render, plots).Ok?
    ensures Sound(MergeScenariosSpec(render, plots).value, render)
  {
    if plots != [] {
      assert plots[0] in plots;
      assert forall p :: p in plots[1..] ==> p in plots;
      ConvertMeaning(render, plots[0].body);
      MergeFromSound(render, ConvertToNodeList(render, plots[0].body).value, plots[1..]);
    }
  }

  // ---------------------------------------------------------------------
  // Emission

  /** An upper bound on the tree, the termination measure of emission. */
  function TreeSize(t: Option<DNode>): nat
  {
    if t.None? then 0 else 1 + TreeSize(t.value.down) + TreeSize(t.value.right)
  }

  /** appendNodeToBody, as the statements it appends. */
  function Emit(t: Option<DNode>): seq<Node>
    decreases TreeSize(t), 1
  {
    if t.None? then []
    else
      match t.value.item
      case RuleItem(condition, expression, _) =>
        if condition == Yes then [IfStatement(expression, t.value.down, t.value.right)]
        else [IfStatement(expression, t.value.right, t.value.down)]
      case ActionItem(expression, _) => [expression] + Emit(t.value.down)
  }

  /** makeIfStatement: `upper` in the then-block; `lower`, when present, in
      an else-block. */
  function IfStatement(test: Node, upper: Option<DNode>, lower: Option<DNode>): Node
    decreases TreeSize(upper) + TreeSize(lower), 2
  {
    If(test, Emit(upper), if lower.Some? then Emit(lower) else [], lower.Some?)
  }

  /** appendNodeToBody: pushes the statements of `t` onto `body`. */
  method AppendNodeToBody(t: Option<DNode>, body: seq<Node>) returns (out: seq<Node>)
    ensures out == body + Emit(t)
    decreases TreeSize(t), 1
  {
    if t.None? {
      return body;
    }
    var node := t.value;
    match node.item {
      case RuleItem(condition, expression, _) =>
        var upper, lower := node.down, node.right;
        if condition == No {
          upper, lower := node.right, node.down;
        }
        var ifStatement := MakeIfStatement(expression, upper, lower);
        out := body + [ifStatement];
      case ActionItem(expression, _) =>
        out := body + [expression];
        out := AppendNodeToBody(node.down, out);
    }
  }

  /** makeIfStatement, building the two blocks with appendNodeToBody. */
  method MakeIfStatement(test: Node, upper: Option<DNode>, lower: Option<DNode>) returns (s: Node)
    ensures s == IfStatement(test, upper, lower)
    decreases TreeSize(upper) + TreeSize(lower), 2
  {
    var consequent := AppendNodeToBody(upper, []);
    var alternate := [];
    if lower.Some? {
      alternate := AppendNodeToBody(lower, []);
    }
    s := If(test, consequent, alternate, lower.Some?);
  }

  // ---------------------------------------------------------------------
  // The body of the generated function

  /** buildBodyFromSections, as a value: each section's leading statements
      followed by the code of its tree, section after section. */
  function SectionsCode(sections: seq<Section>, trees: seq<Option<DNode>>): seq<Node>
    requires |trees| == |sections|
  {
    if sections == [] then []
    else
      var k := |sections| - 1;
      SectionsCode(sections[..k], trees[..k]) + sections[k].body + Emit(trees[k])
  }

  /** appendSectionToBody: pushes the leading statements, then the tree. */
  method AppendSectionToBody(section: Section, tree: Option<DNode>, body: seq<Node>) returns (out: seq<Node>)
    ensures out == body + section.body + Emit(tree)
  {
    out := body;
    var j := 0;
    while j < |section.body|
      invariant 0 <= j <= |section.body|
      invariant out == body + section.body[..j]
    {
      out := out + [section.body[j]];
      j := j + 1;
    }
    assert section.body[..j] == section.body;
    out := AppendNodeToBody(tree, out);
  }

  /** buildBodyFromSections, given the tree mergeScenarios made for each
      section. */
  method BuildBodyFromSections(sections: seq<Section>, trees: seq<Option<DNode>>) returns (body: seq<Node>)
    requires |trees| == |sections|
    ensures body == SectionsCode(sections, trees)
  {
    body := [];
    var i := 0;
    while i < |sections|
      invariant 0 <= i <= |sections|
      invariant body == SectionsCode(sections[..i], trees[..i])
    {
      body := AppendSectionToBody(sections[i], trees[i], body);
      assert sections[..i + 1][..i] == sections[..i] && trees[..i + 1][..i] == trees[..i];
      i := i + 1;
    }
    assert sections[..i] == sections && trees[..i] == trees;
  }

  // ---------------------------------------------------------------------
  // Meaning of a tree and of the emitted code

  /** The outcome of each condition in one run of the generated function,
      by the condition's printed text (the generated code is that text).
      The conditions are required to be free of side effects. */
  type Truth = string -> bool

  /** A tree as the merge builds it from plot statements: every node's text
      is its statement or test printed, and no action is itself an `if`. */
  predicate Sound(t: Option<DNode>, render: Render)
  {
    t.Some? ==>
      t.value.item.text == render(t.value.item.expression) &&
      (t.value.item.ActionItem? ==> !t.value.item.expression.If?) &&
      Sound(t.value.down, render) && Sound(t.value.right, render)
  }

  /** A printer that never prints a return or throw like another kind of
      statement. */
  ghost predicate KeepsTerminals(render: Render)
  {
    forall x, y :: render(x) == render(y) ==> x.Terminal? == y.Terminal?
  }

  /** What one run executes: the printed statements, in order, and whether
      it ended in a return or throw. */
  datatype Trace = Trace(printed: seq<string>, stopped: bool)

  /** The run of the tree: rules choose `down` when their test has the
      rule's polarity, `right` otherwise; actions execute, and a return or
      throw ends the run. */
  function Run(t: Option<DNode>, truth: Truth): Trace
  {
    if t.None? then Trace([], false)
    else
      match t.value.item
      case RuleItem(condition, _, text) =>
        if truth(text) == (condition == Yes) then Run(t.value.down, truth) else Run(t.value.right, truth)
      case ActionItem(expression, text) =>
        if expression.Terminal? then Trace([text], true)
        else
          var rest := Run(t.value.down, truth);
          Trace([text] + rest.printed, rest.stopped)
  }

  /** The run of a statement list: an `if` runs one of its blocks, and the
      statements after it unless that block returned or threw. */
  function Exec(stmts: seq<Node>, render: Render, truth: Truth): Trace
    decreases SizeList(stmts)
  {
    if stmts == [] then Trace([], false)
    else
      var s := stmts[0];
      assert SizeList(stmts) == Size(s) + SizeList(stmts[1..]);
      if s.If? then
        var inner := Exec(if truth(render(s.test)) then s.consequent else s.alternate, render, truth);
        if inner.stopped then inner
        else
          var rest := Exec(stmts[1..], render, truth);
          Trace(inner.printed + rest.printed, rest.stopped)
      else if s.Terminal? then Trace([render(s)], true)
      else
        var rest := Exec(stmts[1..], render, truth);
        Trace([render(s)] + rest.printed, rest.stopped)
  }

  /** The emitted code does what the tree says: its runs are the tree's
      runs. */
  lemma {:induction false} EmitMeansRun(t: Option<DNode>, render: Render, truth: Truth)
    requires Sound(t, render)
    ensures Exec(Emit(t), render, truth) == Run(t, truth)
    decreases TreeSize(t)
  {
    if t.Some? {
      var n := t.value;
      match n.item {
        case RuleItem(condition, expression, _) =>
          var upper := if condition == Yes then n.down else n.right;
          var lower := if condition == Yes then n.right else n.down;
          var s := IfStatement(expression, upper, lower);
          assert Emit(t) == [s];
          EmitMeansRun(upper, render, truth);
          EmitMeansRun(lower, render, truth);
          var inner := Exec(if truth(render(expression)) then s.consequent else s.alternate, render, truth);
          assert Exec([s], render, truth) ==
                 if inner.stopped then inner
                 else Trace(inner.printed + Exec([], render, truth).printed, Exec([], render, truth).stopped);
          assert inner.printed + [] == inner.printed;
        case ActionItem(expression, _) =>
          EmitMeansRun(n.down, render, truth);
          assert Emit(t) == [expression] + Emit(n.down);
          assert ([expression] + Emit(n.down))[1..] == Emit(n.down);
      }
    }
  }

  predicate Prefix(x: seq<string>, y: seq<string>)
  {
    |x| <= |y| && x == y[..|x|]
  }

  /** Filling in empty `right` fields only adds behaviour: every run of the
      smaller tree is a prefix of the same run of the larger one. */
  lemma {:induction false} ExtendsRunsPrefix(a: Option<DNode>, b: Option<DNode>, truth: Truth)
    requires Extends(a, b)
    ensures Prefix(Run(a, truth).printed, Run(b, truth).printed)
  {
    if a.Some? {
      ExtendsRunsPrefix(a.value.down, b.value.down, truth);
      if a.value.right.Some? {
        ExtendsRunsPrefix(a.value.right, b.value.right, truth);
      }
    }
  }

  /** A run of the merged tree agrees with the merged chain for as long as
      both go: one of the two printed traces is a prefix of the other. */
  lemma {:induction false} MergeAgreesWithAddition(main: Option<DNode>, addition: Option<DNode>,
                                                   render: Render, truth: Truth)
    requires KeepsTerminals(render) && Sound(main, render) && Sound(addition, render)
    requires IsChain(addition)
    requires MergeNodes(main, addition).Ok?
    ensures var r := Run(MergeNodes(main, addition).value, truth).printed;
            var p := Run(addition, truth).printed;
            Prefix(r, p) || Prefix(p, r)
    decreases addition
  {
    if main.Some? && addition.Some? {
      var m, a := main.value, addition.value;
      if m.item.RuleItem? && m.item.condition != a.item.condition {
        if m.right.Some? {
          MergeAgreesWithAddition(m.right, a.down, render, truth);
        }
      } else {
        MergeAgreesWithAddition(m.down, a.down, render, truth);
        if m.item.ActionItem? {
          assert m.item.expression.Terminal? == a.item.expression.Terminal?;
        }
      }
    }
  }

  /** Running one statement list after another: the second runs only when
      the first did not return or throw. */
  function Then(first: Trace, second: Trace): Trace
  {
    if first.stopped then first else Trace(first.printed + second.printed, second.stopped)
  }

  lemma ThenAssociative(x: Trace, y: Trace, z: Trace)
    ensures Then(x, Then(y, z)) == Then(Then(x, y), z)
  {
    if !x.stopped && !y.stopped {
      assert x.printed + (y.printed + z.printed) == (x.printed + y.printed) + z.printed;
    }
  }

  /** A statement list runs its first statement, then the rest unless that
      statement returned or threw. */
  lemma ExecCons(s: Node, rest: seq<Node>, render: Render, truth: Truth)
    ensures Exec([s] + rest, render, truth) == Then(Exec([s], render, truth), Exec(rest, render, truth))
  {
    var ss := [s] + rest;
    assert ss[0] == s && ss[1..] == rest && [s][1..] == [];
    var tail := Exec(rest, render, truth);
    if s.If? {
      var inner := Exec(if truth(render(s.test)) then s.consequent else s.alternate, render, truth);
      assert inner.printed + [] == inner.printed;
    } else if !s.Terminal? {
      assert [render(s)] + [] == [render(s)];
    }
  }

  lemma {:induction false} ExecConcat(a: seq<Node>, b: seq<Node>, render: Render, truth: Truth)
    ensures Exec(a + b, render, truth) == Then(Exec(a, render, truth), Exec(b, render, truth))
    decreases |a|
  {
    if a == [] {
      assert a + b == b;
    } else {
      assert a + b == [a[0]] + (a[1..] + b);
      assert a == [a[0]] + a[1..];
      ExecCons(a[0], a[1..] + b, render, truth);
      ExecCons(a[0], a[1..], render, truth);
      ExecConcat(a[1..], b, render, truth);
      ThenAssociative(Exec([a[0]], render, truth), Exec(a[1..], render, truth), Exec(b, render, truth));
    }
  }

  /** Sections run in order, and a section runs only when the sections
      before it ended without a return or throw. */
  lemma SectionsRunInOrder(sections: seq<Section>, trees: seq<Option<DNode>>, render: Render, truth: Truth)
    requires |trees| == |sections| && sections != []
    requires Sound(trees[|sections| - 1], render)
    ensures var k := |sections| - 1;
            Exec(SectionsCode(sections, trees), render, truth) ==
              Then(Exec(SectionsCode(sections[..k], trees[..k]), render, truth),
                   Then(Exec(sections[k].body, render, truth), Run(trees[k], truth)))
  {
    var k := |sections| - 1;
    var before := SectionsCode(sections[..k], trees[..k]);
    var tail := sections[k].body + Emit(trees[k]);
    assert SectionsCode(sections, trees) == before + tail;
    ExecConcat(before, tail, render, truth);
    ExecConcat(sections[k].body, Emit(trees[k]), render, truth);
    EmitMeansRun(trees[k], render, truth);
  }
}
