/** The fizzbuzz scenarios as plots of one section, merged and emitted.

    The example file writes each scenario as a function of its own under a
    `defineFunction` header; here they are rewritten as statements of one
    algorithm body, each plot opened by a `plot()` marker, which is the form
    the section builder reads.

    Three plots test `number % 3 === 0` (A) and `number % 5 === 0` (B):
      yes(A) no(B)  return "Fizz"
      no(A)  yes(B) return "Buzz"
      yes(A) yes(B) return "FizzBuzz"
    They merge into one tree whatever the printer prints, and the emitted
    code returns "Fizz", "Buzz" or "FizzBuzz" exactly for the numbers
    divisible by 3, by 5 or by both, and nothing otherwise. */
module FizzBuzz {
  import opened Errors
  import opened Syntax
  import opened Sections
  import opened DecisionTree

  /** `number % d === 0` */
  function DivisibleBy(d: int): Node
  {
    Other("===", [Other("%", [Identifier("number"), Lit(Num(d))]), Lit(Num(0))])
  }

  function Return(s: string): Node
  {
    Terminal(ReturnStmt, [Lit(Str(s))])
  }

  function Plots(): seq<Plot>
  {
    var a, b := DivisibleBy(3), DivisibleBy(5);
    [ Plot("divisibleByThree_Fizz",
           [CallStatement("yes", [a]), CallStatement("no", [b]), Return("Fizz")]),
      Plot("divisibleByFive_Fizz",
           [CallStatement("no", [a]), CallStatement("yes", [b]), Return("Buzz")]),
      Plot("divisibleByThreeAndFive_FizzBuzz",
           [CallStatement("yes", [a]), CallStatement("yes", [b]), Return("FizzBuzz")]) ]
  }

  function Leaf(render: Render, s: string): DNode
  {
    DNode(ActionItem(Return(s), render(Return(s))), None, None)
  }

  /** The merged tree: `right` of the top rule holds the second plot, `right`
      of the rule `no(B)` under it the rest of the third. */
  function Tree(render: Render): DNode
  {
    var a, b := DivisibleBy(3), DivisibleBy(5);
    DNode(RuleItem(Yes, a, render(a)),
          Some(DNode(RuleItem(No, b, render(b)), Some(Leaf(render, "Fizz")), Some(Leaf(render, "FizzBuzz")))),
          Some(DNode(RuleItem(Yes, b, render(b)), Some(Leaf(render, "Buzz")), None)))
  }

  function Chain(render: Render, p: Polarity, q: Polarity, s: string): DNode
  {
    var a, b := DivisibleBy(3), DivisibleBy(5);
    DNode(RuleItem(p, a, render(a)), Some(DNode(RuleItem(q, b, render(b)), Some(Leaf(render, s)), None)), None)
  }

  function RuleStatement(p: Polarity, test: Node): Node
  {
    CallStatement(if p == Yes then "yes" else "no", [test])
  }

  /** The chain of a plot `p(A) q(B) return s`. */
  lemma ChainOfPlot(render: Render, p: Polarity, q: Polarity, s: string)
    ensures ConvertToNodeList(render, [RuleStatement(p, DivisibleBy(3)), RuleStatement(q, DivisibleBy(5)), Return(s)])
            == Ok(Some(Chain(render, p, q, s)))
  {
    var a, b := DivisibleBy(3), DivisibleBy(5);
    var body := [RuleStatement(p, a), RuleStatement(q, b), Return(s)];
    assert ConvertExpressionToNode(render, Return(s)) == Ok(Leaf(render, s));
    assert ConvertToNodeList(render, [Return(s)]) == Ok(Some(Leaf(render, s))) by {
      assert [Return(s)][1..] == [];
    }
    assert ConvertExpressionToNode(render, RuleStatement(q, b)) == Ok(DNode(RuleItem(q, b, render(b)), None, None));
    assert body[1..][1..] == [Return(s)];
    assert ConvertToNodeList(render, body[1..]) ==
           Ok(Some(DNode(RuleItem(q, b, render(b)), Some(Leaf(render, s)), None)));
    assert ConvertExpressionToNode(render, RuleStatement(p, a)) == Ok(DNode(RuleItem(p, a, render(a)), None, None));
  }

  lemma ChainsOfPlots(render: Render)
    ensures ConvertToNodeList(render, Plots()[0].body) == Ok(Some(Chain(render, Yes, No, "Fizz")))
    ensures ConvertToNodeList(render, Plots()[1].body) == Ok(Some(Chain(render, No, Yes, "Buzz")))
    ensures ConvertToNodeList(render, Plots()[2].body) == Ok(Some(Chain(render, Yes, Yes, "FizzBuzz")))
  {
    var a, b := DivisibleBy(3), DivisibleBy(5);
    assert Plots()[0].body == [RuleStatement(Yes, a), RuleStatement(No, b), Return("Fizz")];
    assert Plots()[1].body == [RuleStatement(No, a), RuleStatement(Yes, b), Return("Buzz")];
    assert Plots()[2].body == [RuleStatement(Yes, a), RuleStatement(Yes, b), Return("FizzBuzz")];
    ChainOfPlot(render, Yes, No, "Fizz");
    ChainOfPlot(render, No, Yes, "Buzz");
    ChainOfPlot(render, Yes, Yes, "FizzBuzz");
  }

  /** The tree after the second plot is merged into the first: the `no`
      rule of the second plot fills `right` of the top rule. */
  function Partial(render: Render): DNode
  {
    Chain(render, Yes, No, "Fizz").(right := Chain(render, No, Yes, "Buzz").down)
  }

  lemma FirstMerge(render: Render)
    ensures MergeNodes(Some(Chain(render, Yes, No, "Fizz")), Some(Chain(render, No, Yes, "Buzz")))
            == Ok(Some(Partial(render)))
  {
  }

  lemma SecondMerge(render: Render)
    ensures MergeNodes(Some(Partial(render)), Some(Chain(render, Yes, Yes, "FizzBuzz")))
            == Ok(Some(Tree(render)))
  {
    var p, c := Partial(render), Chain(render, Yes, Yes, "FizzBuzz");
    var rule := p.down.value;
    assert MergeNodes(rule.right, c.down.value.down) == Ok(rule.right);
    assert MergeNodes(p.down, c.down) == Ok(Some(rule.(right := c.down.value.down)));
  }

  /** The fold over three plots whose chains merge pairwise. */
  lemma FoldThree(render: Render, ps: seq<Plot>, c0: DNode, c1: DNode, c2: DNode, t1: DNode, t: DNode)
    requires |ps| == 3
    requires ConvertToNodeList(render, ps[0].body) == Ok(Some(c0))
    requires ConvertToNodeList(render, ps[1].body) == Ok(Some(c1))
    requires ConvertToNodeList(render, ps[2].body) == Ok(Some(c2))
    requires MergeNodes(Some(c0), Some(c1)) == Ok(Some(t1))
    requires MergeNodes(Some(t1), Some(c2)) == Ok(Some(t))
    ensures MergeScenariosSpec(render, ps) == Ok(Some(t))
  {
    var rest := ps[1..];
    assert rest[0] == ps[1] && rest[1..][0] == ps[2] && rest[1..][1..] == [];
    assert MergeFrom(render, Some(t), rest[1..][1..]) == Ok(Some(t));
    assert MergeFrom(render, Some(t1), rest[1..]) == Ok(Some(t));
  }

  /** Any three plots with the fizzbuzz chains merge into the fizzbuzz tree. */
  lemma ChainsMerge(render: Render, ps: seq<Plot>)
    requires |ps| == 3
    requires ConvertToNodeList(render, ps[0].body) == Ok(Some(Chain(render, Yes, No, "Fizz")))
    requires ConvertToNodeList(render, ps[1].body) == Ok(Some(Chain(render, No, Yes, "Buzz")))
    requires ConvertToNodeList(render, ps[2].body) == Ok(Some(Chain(render, Yes, Yes, "FizzBuzz")))
    ensures MergeScenariosSpec(render, ps) == Ok(Some(Tree(render)))
  {
    FirstMerge(render);
    SecondMerge(render);
    FoldThree(render, ps, Chain(render, Yes, No, "Fizz"), Chain(render, No, Yes, "Buzz"),
              Chain(render, Yes, Yes, "FizzBuzz"), Partial(render), Tree(render));
  }

  /** The three plots are mutually exclusive for every printer. */
  lemma FizzBuzzMerges(render: Render)
    ensures MergeScenariosSpec(render, Plots()) == Ok(Some(Tree(render)))
  {
    ChainsOfPlots(render);
    ChainsMerge(render, Plots());
  }

  /** The runs of the merged tree, by the outcomes of the two tests. */
  lemma TreeRuns(render: Render, truth: Truth)
    ensures var three, five := truth(render(DivisibleBy(3))), truth(render(DivisibleBy(5)));
            Run(Some(Tree(render)), truth) ==
              if three && five then Trace([render(Return("FizzBuzz"))], true)
              else if three then Trace([render(Return("Fizz"))], true)
              else if five then Trace([render(Return("Buzz"))], true)
              else Trace([], false)
  {
    var t := Tree(render);
    assert Run(t.down.value.down, truth) == Trace([render(Return("Fizz"))], true);
    assert Run(t.down.value.right, truth) == Trace([render(Return("FizzBuzz"))], true);
    assert Run(t.right.value.down, truth) == Trace([render(Return("Buzz"))], true);
    var three, five := truth(render(DivisibleBy(3))), truth(render(DivisibleBy(5)));
    assert Run(t.down, truth) == if five then Run(t.down.value.right, truth) else Run(t.down.value.down, truth);
    assert Run(t.right, truth) == if five then Run(t.right.value.down, truth) else Trace([], false);
    assert Run(Some(t), truth) == if three then Run(t.down, truth) else Run(t.right, truth);
  }

  lemma TreeSound(render: Render)
    ensures Sound(Some(Tree(render)), render)
  {
    var t := Tree(render);
    assert Sound(t.down.value.down, render) && Sound(t.down.value.right, render);
    assert Sound(t.right.value.down, render);
  }

  /** The outcome of the two tests for `number`, by their printed text. */
  function Divisibility(render: Render, number: int): Truth
  {
    t => if t == render(DivisibleBy(3)) then number % 3 == 0
         else if t == render(DivisibleBy(5)) then number % 5 == 0
         else false
  }

  /** The generated function returns the right word for every number, and
      nothing when the number is divisible by neither 3 nor 5 (the last of
      which the generated code reaches by falling off the end). */
  lemma FizzBuzzReturns(render: Render, number: int)
    requires render(DivisibleBy(3)) != render(DivisibleBy(5))
    ensures var tree := MergeScenariosSpec(render, Plots());
            tree.Ok? &&
            Exec(Emit(tree.value), render, Divisibility(render, number)) ==
              if number % 3 == 0 && number % 5 == 0 then Trace([render(Return("FizzBuzz"))], true)
              else if number % 3 == 0 then Trace([render(Return("Fizz"))], true)
              else if number % 5 == 0 then Trace([render(Return("Buzz"))], true)
              else Trace([], false)
  {
    var tree := Some(Tree(render));
    assert MergeScenariosSpec(render, Plots()) == Ok(tree) by {
      FizzBuzzMerges(render);
    }
    var truth := Divisibility(render, number);
    assert truth(render(DivisibleBy(3))) == (number % 3 == 0);
    assert truth(render(DivisibleBy(5))) == (number % 5 == 0);
    TreeSound(render);
    EmitMeansRun(tree, render, truth);
    TreeRuns(render, truth);
  }
}
