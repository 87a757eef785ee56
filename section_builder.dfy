/** The section builder: a state machine that reads the statements of an
    algorithm body one by one and groups them into sections, each with an
    optional preamble (`body`) and a list of plots (scenarios).

    `section("name")`, `plot("name")`, `yes(c)` and `no(c)` are markers; every
    other statement is kept, in order, in the preamble of the current section
    or in the body of its last plot.  A `return` or `throw` ends a plot, after
    which only a marker may follow. */
module Sections {
  import opened Errors
  import opened Syntax
  import opened Text

  datatype Polarity = Yes | No

  /** What readExpression makes of one statement. */
  datatype Step =
    | Code(expression: Node)
    | PlotEnd(expression: Node)
    | Rule(condition: Polarity, expression: Node)
    | PlotMarker(name: string)
    | SectionMarker(name: string)

  datatype Plot = Plot(name: string, body: seq<Node>)

  datatype Section = Section(name: string, ordinal: nat, body: seq<Node>, plots: seq<Plot>)

  datatype State = Start | InPlot | NoPlot | Complete

  /** The fields of a builder, as a value. */
  datatype Builder = Builder(sections: seq<Section>, state: State, current: Option<Section>)

  /** The text of a string literal, if `n` is one. */
  function StringLiteral(n: Node): (r: Option<string>)
    ensures r.Some? <==> n.Lit? && n.literal.Str?
    ensures r.Some? ==> n == Lit(Str(r.value))
  {
    if n.Lit? && n.literal.Str? then Some(n.literal.s) else None
  }

  /** A statement the builder treats as a marker or as a rule: a call of
      plot, yes, no or section. */
  predicate IsDirective(expr: Node)
  {
    GetCall(expr).Some? && GetCall(expr).value.name in ["plot", "yes", "no", "section"]
  }

  predicate IsFunctionDeclaration(expr: Node)
  {
    expr.Function? && expr.kind == Declaration
  }

  /** readExpression: classifies one statement. */
  function ReadExpression(expr: Node): (r: Result<Step>)
    ensures IsFunctionDeclaration(expr) ==> r == Fail(Coded(SON029))
    ensures !IsFunctionDeclaration(expr) && !IsDirective(expr) ==>
              r == Ok(if expr.Terminal? then PlotEnd(expr) else Code(expr))
    ensures r.Ok? && (r.value.Code? || r.value.PlotEnd? || r.value.Rule?) ==> r.value.expression == expr
    ensures r.Ok? && r.value.PlotEnd? <==> !IsFunctionDeclaration(expr) && expr.Terminal?
    ensures r.Ok? && r.value.Rule? ==> GetCall(expr).Some? && |GetCall(expr).value.arguments| == 1
    ensures r.Ok? ==> StepEndsPlot(r.value)
    ensures r.Fail? ==> r.error.Coded? && r.error.code in {SON029, SON028, SON0012, SON0013, SON0014}
  {
    if IsFunctionDeclaration(expr) then Fail(Coded(SON029))
    else
      match GetCall(expr)
      case Some(call) =>
        if call.name == "plot" then
          if |call.arguments| == 0 then Ok(PlotMarker(""))
          else if StringLiteral(call.arguments[0]).None? then Fail(Coded(SON028))
          else Ok(PlotMarker(StringLiteral(call.arguments[0]).value))
        else if call.name == "yes" || call.name == "no" then
          if |call.arguments| != 1 then Fail(Coded(SON0012))
          else Ok(Rule(if call.name == "yes" then Yes else No, expr))
        else if call.name == "section" then
          if |call.arguments| == 0 then Ok(SectionMarker(""))
          else if |call.arguments| == 1 then
            if StringLiteral(call.arguments[0]).None? then Fail(Coded(SON0013))
            else Ok(SectionMarker(StringLiteral(call.arguments[0]).value))
          else Fail(Coded(SON0014))
        else
          Ok(if expr.Terminal? then PlotEnd(expr) else Code(expr))
      case None =>
        Ok(if expr.Terminal? then PlotEnd(expr) else Code(expr))
  }

  /** Every marker statement a user writes is read back as that marker. */
  lemma ReadMarkers(name: string, c: Node)
    ensures ReadExpression(CallStatement("plot", [Lit(Str(name))])) == Ok(PlotMarker(name))
    ensures ReadExpression(CallStatement("plot", [])) == Ok(PlotMarker(""))
    ensures ReadExpression(CallStatement("section", [Lit(Str(name))])) == Ok(SectionMarker(name))
    ensures ReadExpression(CallStatement("section", [])) == Ok(SectionMarker(""))
    ensures ReadExpression(CallStatement("yes", [c])) == Ok(Rule(Yes, CallStatement("yes", [c])))
    ensures ReadExpression(CallStatement("no", [c])) == Ok(Rule(No, CallStatement("no", [c])))
    ensures ReadExpression(CallStatement("section", [Lit(Num(1))])) == Fail(Coded(SON0013))
    ensures ReadExpression(CallStatement("yes", [])) == Fail(Coded(SON0012))
  {
  }

  // ---------------------------------------------------------------------
  // The builder's operations on values

  /** createSection: an empty section, named "#<ordinal>" when `name` is
      empty. */
  function NewSection(ordinal: nat, name: string): (s: Section)
    ensures s.ordinal == ordinal && s.body == [] && s.plots == []
    ensures s.name != ""
    ensures name != "" ==> s.name == name
    ensures name == "" ==> s.name == "#" + NatToString(ordinal)
  {
    Section(if name == "" then "#" + NatToString(ordinal) else name, ordinal, [], [])
  }

  /** The name startPlot gives a plot: its own, or "<section>, plot <k>"
      where k counts the plots of the section including this one. */
  function PlotName(section: Section, name: string): string
  {
    if name == "" then section.name + ", plot " + NatToString(|section.plots| + 1) else name
  }

  /** startPlot: appends an empty plot. */
  function StartPlot(section: Section, name: string): (s: Section)
    ensures s.plots == section.plots + [Plot(PlotName(section, name), [])]
    ensures s.(plots := section.plots) == section
  {
    section.(plots := section.plots + [Plot(PlotName(section, name), [])])
  }

  /** addToPlot: appends a statement to the last plot. */
  function AddToPlot(section: Section, expr: Node): (s: Section)
    requires section.plots != []
    ensures |s.plots| == |section.plots|
    ensures s.plots[..|s.plots| - 1] == section.plots[..|section.plots| - 1]
    ensures s.plots[|s.plots| - 1].body == section.plots[|section.plots| - 1].body + [expr]
    ensures s.plots[|s.plots| - 1].name == section.plots[|section.plots| - 1].name
    ensures s.(plots := section.plots) == section
  {
    var last := section.plots[|section.plots| - 1];
    section.(plots := section.plots[..|section.plots| - 1] + [last.(body := last.body + [expr])])
  }

  /** startNextSection on values: stores the current section and opens the
      next one. */
  function OpenSection(b: Builder, name: string): (r: Builder)
    requires b.current.Some?
  {
    Builder(b.sections + [b.current.value], Start, Some(NewSection(b.current.value.ordinal + 1, name)))
  }

  /** The state the builder keeps between calls. */
  ghost predicate WellFormed(b: Builder)
  {
    && (b.state == Complete <==> b.current.None?)
    && (b.state == Start ==> b.current.value.plots == [])
    && (b.state == InPlot || b.state == NoPlot ==> b.current.value.plots != [])
  }

  function StartStep(b: Builder, step: Step): (r: Builder)
    requires WellFormed(b) && b.state == Start
  {
    var c := b.current.value;
    match step
    case Code(e) => b.(current := Some(c.(body := c.body + [e])))
    case PlotEnd(e) => b.(current := Some(c.(body := c.body + [e])))
    case Rule(_, e) => b.(current := Some(AddToPlot(StartPlot(c, ""), e)), state := InPlot)
    case PlotMarker(n) => b.(current := Some(StartPlot(c, n)), state := InPlot)
    case SectionMarker(n) => OpenSection(b, n)
  }

  function PlotStep(b: Builder, step: Step): (r: Builder)
    requires WellFormed(b) && b.state == InPlot
  {
    var c := b.current.value;
    match step
    case Code(e) => b.(current := Some(AddToPlot(c, e)))
    case Rule(_, e) => b.(current := Some(AddToPlot(c, e)))
    case PlotEnd(e) => b.(current := Some(AddToPlot(c, e)), state := NoPlot)
    case PlotMarker(n) => b.(current := Some(StartPlot(c, n)), state := InPlot)
    case SectionMarker(n) => OpenSection(b, n)
  }

  function NoPlotStep(b: Builder, step: Step): (r: Result<Builder>)
    requires WellFormed(b) && b.state == NoPlot
  {
    var c := b.current.value;
    match step
    case Code(_) => Fail(Coded(SON0019))
    case PlotEnd(_) => Fail(Coded(SON0019))
    case Rule(_, e) => Ok(b.(current := Some(AddToPlot(StartPlot(c, ""), e)), state := InPlot))
    case PlotMarker(n) => Ok(b.(current := Some(StartPlot(c, n)), state := InPlot))
    case SectionMarker(n) => Ok(OpenSection(b, n))
  }

  /** nextExpression: the statement is read first, so a malformed marker is
      reported even after the builder is complete. */
  function Advance(b: Builder, expr: Node): (r: Result<Builder>)
    requires WellFormed(b)
    ensures r.Ok? ==> b.sections <= r.value.sections
    ensures r.Ok? ==> WellFormed(r.value) && r.value.state != Complete
    ensures b.state == Complete ==> r.Fail?
  {
    var step :- ReadExpression(expr);
    Apply(b, step)
  }

  /** The handler of the builder's state applied to one step. */
  function Apply(b: Builder, step: Step): (r: Result<Builder>)
    requires WellFormed(b)
    ensures r.Ok? ==> b.sections <= r.value.sections
    ensures r.Ok? ==> WellFormed(r.value) && r.value.state != Complete
    ensures b.state == Complete ==> r.Fail?
  {
    match b.state
    case Start => Ok(StartStep(b, step))
    case InPlot => Ok(PlotStep(b, step))
    case NoPlot => NoPlotStep(b, step)
    case Complete => Fail(UnexpectedState)
  }

  /** done: stores the current section and completes the builder; a second
      done fails. */
  function Close(b: Builder): (r: Result<Builder>)
    requires WellFormed(b)
    ensures r.Ok? <==> b.state != Complete
    ensures r.Ok? ==> r.value.state == Complete && WellFormed(r.value)
    ensures r.Ok? ==> r.value.sections == b.sections + [b.current.value]
  {
    if b.state == Complete then Fail(BuilderComplete)
    else Ok(Builder(b.sections + [b.current.value], Complete, None))
  }

  /** sectionBuilder(): a builder with an empty first section named "#1". */
  function Initial(): (b: Builder)
    ensures WellFormed(b) && b.state == Start && b.sections == []
    ensures b.current == Some(Section("#1", 1, [], []))
  {
    assert "#" + NatToString(1) == "#1";
    Builder([], Start, Some(NewSection(1, "")))
  }

  /** The builder fed a whole list of statements, stopping at the first
      error. */
  function Feed(b: Builder, exprs: seq<Node>): (r: Result<Builder>)
    requires WellFormed(b)
    ensures r.Ok? ==> WellFormed(r.value)
  {
    if exprs == [] then Ok(b)
    else
      match Feed(b, exprs[..|exprs| - 1])
      case Fail(e) => Fail(e)
      case Ok(b') => Advance(b', exprs[|exprs| - 1])
  }

  // ---------------------------------------------------------------------
  // Every statement that is not a marker is kept, once, in order

  /** plot(...) and section(...) statements, which the builder consumes. */
  predicate IsMarker(expr: Node)
  {
    GetCall(expr).Some? && GetCall(expr).value.name in ["plot", "section"]
  }

  /** The statements of `exprs` that are not markers, in order. */
  function Kept(exprs: seq<Node>): seq<Node>
  {
    if exprs == [] then []
    else Kept(exprs[..|exprs| - 1]) + (if IsMarker(exprs[|exprs| - 1]) then [] else [exprs[|exprs| - 1]])
  }

  function PlotStatements(plots: seq<Plot>): seq<Node>
  {
    if plots == [] then [] else PlotStatements(plots[..|plots| - 1]) + plots[|plots| - 1].body
  }

  function SectionStatements(s: Section): seq<Node>
  {
    s.body + PlotStatements(s.plots)
  }

  function SectionsStatements(ss: seq<Section>): seq<Node>
  {
    if ss == [] then [] else SectionsStatements(ss[..|ss| - 1]) + SectionStatements(ss[|ss| - 1])
  }

  /** Every statement the builder holds, section by section, preamble before
      plots. */
  function Statements(b: Builder): seq<Node>
  {
    SectionsStatements(b.sections) + (if b.current.Some? then SectionStatements(b.current.value) else [])
  }

  lemma PlotStatementsAppend(plots: seq<Plot>, p: Plot)
    ensures PlotStatements(plots + [p]) == PlotStatements(plots) + p.body
  {
    assert (plots + [p])[..|plots|] == plots;
  }

  lemma SectionsStatementsAppend(ss: seq<Section>, s: Section)
    ensures SectionsStatements(ss + [s]) == SectionsStatements(ss) + SectionStatements(s)
  {
    assert (ss + [s])[..|ss|] == ss;
  }

  lemma StartPlotKeepsStatements(c: Section, name: string)
    ensures SectionStatements(StartPlot(c, name)) == SectionStatements(c)
  {
    PlotStatementsAppend(c.plots, Plot(PlotName(c, name), []));
  }

  lemma AddToPlotAppends(c: Section, e: Node)
    requires c.plots != []
    ensures SectionStatements(AddToPlot(c, e)) == SectionStatements(c) + [e]
  {
    var init, last := c.plots[..|c.plots| - 1], c.plots[|c.plots| - 1];
    assert c.plots == init + [last];
    PlotStatementsAppend(init, last);
    PlotStatementsAppend(init, last.(body := last.body + [e]));
    assert AddToPlot(c, e).plots == init + [last.(body := last.body + [e])];
  }

  lemma OpenSectionKeepsStatements(b: Builder, name: string)
    requires b.current.Some?
    ensures Statements(OpenSection(b, name)) == Statements(b)
  {
    SectionsStatementsAppend(b.sections, b.current.value);
    assert PlotStatements([]) == [];
  }

  /** The statements a step hands to the builder. */
  function StepStatements(step: Step): seq<Node>
  {
    match step
    case Code(e) => [e]
    case PlotEnd(e) => [e]
    case Rule(_, e) => [e]
    case PlotMarker(_) => []
    case SectionMarker(_) => []
  }

  /** A successful readExpression hands over the statement itself unless it
      is a marker. */
  lemma ReadKeeps(expr: Node)
    requires ReadExpression(expr).Ok?
    ensures StepStatements(ReadExpression(expr).value) == if IsMarker(expr) then [] else [expr]
  {
  }

  /** Replacing the open section by one that holds `d` more statements adds
      `d` at the end of what the builder holds. */
  lemma CurrentGrows(b: Builder, c2: Section, st: State, d: seq<Node>)
    requires b.current.Some? && SectionStatements(c2) == SectionStatements(b.current.value) + d
    ensures Statements(b.(current := Some(c2), state := st)) == Statements(b) + d
  {
    var ss := SectionsStatements(b.sections);
    assert ss + (SectionStatements(b.current.value) + d) == (ss + SectionStatements(b.current.value)) + d;
  }

  /** A statement added to the preamble of a section without plots comes
      last. */
  lemma AppendToPreamble(b: Builder, e: Node)
    requires b.current.Some? && b.current.value.plots == []
    ensures var c := b.current.value;
            Statements(b.(current := Some(c.(body := c.body + [e])))) == Statements(b) + [e]
  {
    var c := b.current.value;
    var ss := SectionsStatements(b.sections);
    assert SectionStatements(c) == c.body + [];
    assert SectionStatements(c.(body := c.body + [e])) == c.body + [e] + [];
    assert ss + (c.body + [e]) == (ss + c.body) + [e];
  }

  lemma StartStepAppends(b: Builder, step: Step)
    requires WellFormed(b) && b.state == Start
    ensures Statements(StartStep(b, step)) == Statements(b) + StepStatements(step)
  {
    var c := b.current.value;
    match step
    case Code(e) =>
      AppendToPreamble(b, e);
    case PlotEnd(e) =>
      AppendToPreamble(b, e);
    case Rule(_, e) =>
      StartPlotKeepsStatements(c, "");
      AddToPlotAppends(StartPlot(c, ""), e);
      CurrentGrows(b, AddToPlot(StartPlot(c, ""), e), InPlot, [e]);
    case PlotMarker(n) =>
      StartPlotKeepsStatements(c, n);
      CurrentGrows(b, StartPlot(c, n), InPlot, []);
      assert Statements(b) + [] == Statements(b);
    case SectionMarker(n) =>
      OpenSectionKeepsStatements(b, n);
  }

  lemma PlotStepAppends(b: Builder, step: Step)
    requires WellFormed(b) && b.state == InPlot
    ensures Statements(PlotStep(b, step)) == Statements(b) + StepStatements(step)
  {
    var c := b.current.value;
    match step
    case Code(e) => AddToPlotAppends(c, e);
    case PlotEnd(e) => AddToPlotAppends(c, e);
    case Rule(_, e) => AddToPlotAppends(c, e);
    case PlotMarker(n) => StartPlotKeepsStatements(c, n);
    case SectionMarker(n) => OpenSectionKeepsStatements(b, n);
  }

  lemma NoPlotStepAppends(b: Builder, step: Step)
    requires WellFormed(b) && b.state == NoPlot && NoPlotStep(b, step).Ok?
    ensures Statements(NoPlotStep(b, step).value) == Statements(b) + StepStatements(step)
  {
    var c := b.current.value;
    match step
    case Rule(_, e) =>
      StartPlotKeepsStatements(c, "");
      AddToPlotAppends(StartPlot(c, ""), e);
    case PlotMarker(n) => StartPlotKeepsStatements(c, n);
    case SectionMarker(n) => OpenSectionKeepsStatements(b, n);
  }

  /** One statement: a marker adds nothing, any other statement is appended
      after every statement already held. */
  lemma AdvanceAppends(b: Builder, expr: Node)
    requires WellFormed(b) && Advance(b, expr).Ok?
    ensures Statements(Advance(b, expr).value) == Statements(b) + (if IsMarker(expr) then [] else [expr])
  {
    ReadKeeps(expr);
    var step := ReadExpression(expr).value;
    match b.state
    case Start => StartStepAppends(b, step);
    case InPlot => PlotStepAppends(b, step);
    case NoPlot => NoPlotStepAppends(b, step);
  }

  /** Fed from its initial state, the builder holds exactly the statements
      that are not markers, in their order. */
  lemma {:induction false} FeedKeepsStatements(b: Builder, exprs: seq<Node>)
    requires WellFormed(b) && Feed(b, exprs).Ok?
    ensures Statements(Feed(b, exprs).value) == Statements(b) + Kept(exprs)
  {
    if exprs != [] {
      var init, last := exprs[..|exprs| - 1], exprs[|exprs| - 1];
      var before := Feed(b, init).value;
      assert Feed(b, exprs) == Advance(before, last);
      assert Kept(exprs) == Kept(init) + (if IsMarker(last) then [] else [last]);
      FeedKeepsStatements(b, init);
      AdvanceAppends(before, last);
    }
  }

  lemma CloseKeepsStatements(b: Builder)
    requires WellFormed(b) && Close(b).Ok?
    ensures Statements(Close(b).value) == Statements(b)
  {
    SectionsStatementsAppend(b.sections, b.current.value);
  }

  // ---------------------------------------------------------------------
  // Numbering and naming of sections

  /** Section k (counting from 1) has ordinal k and a non-empty name; the
      current section is the next one. */
  ghost predicate Numbered(b: Builder)
  {
    && (forall i :: 0 <= i < |b.sections| ==> b.sections[i].ordinal == i + 1 && b.sections[i].name != "")
    && (b.current.Some? ==> b.current.value.ordinal == |b.sections| + 1 && b.current.value.name != "")
  }

  lemma AdvanceKeepsNumbering(b: Builder, expr: Node)
    requires WellFormed(b) && Numbered(b) && Advance(b, expr).Ok?
    ensures Numbered(Advance(b, expr).value)
  {
  }

  lemma CloseKeepsNumbering(b: Builder)
    requires WellFormed(b) && Numbered(b) && Close(b).Ok?
    ensures Numbered(Close(b).value)
  {
  }

  /** A section marker opens a section with the given name, or "#<k>" for
      the k-th section when the name is empty. */
  lemma SectionMarkerNames(b: Builder, name: string)
    requires WellFormed(b) && Numbered(b) && b.state != Complete
    ensures var r := Advance(b, CallStatement("section", [Lit(Str(name))]));
            && r.Ok?
            && r.value.sections == b.sections + [b.current.value]
            && r.value.current.value.name == (if name == "" then "#" + NatToString(|b.sections| + 2) else name)
            && r.value.state == Start
  {
    ReadMarkers(name, Lit(Null));
  }

  // ---------------------------------------------------------------------
  // Plots end at their return or throw

  /** No return or throw in `body`. */
  predicate NoTerminal(body: seq<Node>)
  {
    forall i :: 0 <= i < |body| ==> !body[i].Terminal?
  }

  /** A return or throw may only be the last statement of a plot. */
  predicate EndsAtMostOnce(body: seq<Node>)
  {
    forall i :: 0 <= i < |body| - 1 ==> !body[i].Terminal?
  }

  predicate PlotsEndAtMostOnce(s: Section)
  {
    forall j :: 0 <= j < |s.plots| ==> EndsAtMostOnce(s.plots[j].body)
  }

  /** Every plot holds at most one return/throw, as its last statement; the
      plot being filled has none yet, and after one the builder is in the
      no-plot state. */
  ghost predicate PlotsShaped(b: Builder)
  {
    && WellFormed(b)
    && (forall i :: 0 <= i < |b.sections| ==> PlotsEndAtMostOnce(b.sections[i]))
    && (b.current.Some? ==> PlotsEndAtMostOnce(b.current.value))
    && (b.state == InPlot ==> NoTerminal(Last(b.current.value.plots).body))
    && (b.state == NoPlot ==> var body := Last(b.current.value.plots).body;
                              body != [] && body[|body| - 1].Terminal?)
  }

  function Last(plots: seq<Plot>): Plot
    requires plots != []
  {
    plots[|plots| - 1]
  }

  lemma StartPlotShaped(c: Section, name: string)
    requires PlotsEndAtMostOnce(c)
    ensures PlotsEndAtMostOnce(StartPlot(c, name)) && NoTerminal(Last(StartPlot(c, name).plots).body)
  {
    var c' := StartPlot(c, name);
    forall j | 0 <= j < |c'.plots| ensures EndsAtMostOnce(c'.plots[j].body) {
      if j < |c.plots| {
        assert c'.plots[j] == c.plots[j];
      }
    }
  }

  /** Adding to a plot that has no return/throw yet. */
  lemma AddToPlotShaped(c: Section, e: Node)
    requires c.plots != [] && PlotsEndAtMostOnce(c) && NoTerminal(Last(c.plots).body)
    ensures PlotsEndAtMostOnce(AddToPlot(c, e))
    ensures !e.Terminal? ==> NoTerminal(Last(AddToPlot(c, e).plots).body)
    ensures var body := Last(AddToPlot(c, e).plots).body; body[|body| - 1] == e
  {
    var c' := AddToPlot(c, e);
    forall j | 0 <= j < |c'.plots| ensures EndsAtMostOnce(c'.plots[j].body) {
      if j < |c.plots| - 1 {
        assert c'.plots[j] == c'.plots[..|c'.plots| - 1][j] == c.plots[..|c.plots| - 1][j] == c.plots[j];
      }
    }
  }

  /** Only a plot-end step carries a return or throw. */
  predicate StepEndsPlot(step: Step)
  {
    && (step.Code? || step.Rule? ==> !step.expression.Terminal?)
    && (step.PlotEnd? ==> step.expression.Terminal?)
  }

  lemma OpenSectionShaped(b: Builder, name: string)
    requires PlotsShaped(b) && b.current.Some?
    ensures PlotsShaped(OpenSection(b, name))
  {
    var b' := OpenSection(b, name);
    assert forall i :: 0 <= i < |b.sections| ==> b'.sections[i] == b.sections[i];
  }

  lemma StartStepShaped(b: Builder, step: Step)
    requires PlotsShaped(b) && b.state == Start
    requires StepEndsPlot(step)
    ensures PlotsShaped(StartStep(b, step))
  {
    var c := b.current.value;
    match step
    case Code(e) =>
    case PlotEnd(e) =>
    case Rule(_, e) =>
      StartPlotShaped(c, "");
      AddToPlotShaped(StartPlot(c, ""), e);
    case PlotMarker(n) => StartPlotShaped(c, n);
    case SectionMarker(n) => OpenSectionShaped(b, n);
  }

  lemma PlotStepShaped(b: Builder, step: Step)
    requires PlotsShaped(b) && b.state == InPlot
    requires StepEndsPlot(step)
    ensures PlotsShaped(PlotStep(b, step))
  {
    var c := b.current.value;
    match step
    case Code(e) => AddToPlotShaped(c, e);
    case PlotEnd(e) => AddToPlotShaped(c, e);
    case Rule(_, e) => AddToPlotShaped(c, e);
    case PlotMarker(n) => StartPlotShaped(c, n);
    case SectionMarker(n) => OpenSectionShaped(b, n);
  }

  lemma NoPlotStepShaped(b: Builder, step: Step)
    requires PlotsShaped(b) && b.state == NoPlot && NoPlotStep(b, step).Ok?
    requires StepEndsPlot(step)
    ensures PlotsShaped(NoPlotStep(b, step).value)
  {
    var c := b.current.value;
    match step
    case Rule(_, e) =>
      StartPlotShaped(c, "");
      AddToPlotShaped(StartPlot(c, ""), e);
    case PlotMarker(n) => StartPlotShaped(c, n);
    case SectionMarker(n) => OpenSectionShaped(b, n);
  }

  lemma AdvanceKeepsShape(b: Builder, expr: Node)
    requires PlotsShaped(b) && Advance(b, expr).Ok?
    ensures PlotsShaped(Advance(b, expr).value)
  {
    var step := ReadExpression(expr).value;
    match b.state
    case Start => StartStepShaped(b, step);
    case InPlot => PlotStepShaped(b, step);
    case NoPlot => NoPlotStepShaped(b, step);
  }

  /** After a return or throw ends a plot, an ordinary statement is
      rejected: only yes/no, plot() or section() may follow. */
  lemma StatementAfterPlotEndFails(b: Builder, expr: Node)
    requires WellFormed(b) && b.state == NoPlot
    requires !IsFunctionDeclaration(expr) && !IsDirective(expr)
    ensures Advance(b, expr) == Fail(Coded(SON0019))
  {
  }

  lemma CloseKeepsShape(b: Builder)
    requires PlotsShaped(b) && Close(b).Ok?
    ensures PlotsShaped(Close(b).value)
  {
    var b' := Close(b).value;
    assert forall i :: 0 <= i < |b.sections| ==> b'.sections[i] == b.sections[i];
  }

  lemma KeptAppend(exprs: seq<Node>, expr: Node)
    ensures Kept(exprs + [expr]) == Kept(exprs) + (if IsMarker(expr) then [] else [expr])
  {
    assert (exprs + [expr])[..|exprs|] == exprs;
  }

  /** What the builder object keeps: well-formed, numbered sections, plots
      that end at most once, and every accepted statement that is not a
      marker held exactly once, in order. */
  ghost predicate BuilderInvariant(b: Builder, read: seq<Node>)
  {
    PlotsShaped(b) && Numbered(b) && Statements(b) == Kept(read)
  }

  /** Everything the builder object keeps invariant, for one statement. */
  lemma AdvanceKeepsValid(b: Builder, read: seq<Node>, expr: Node)
    requires BuilderInvariant(b, read) && Advance(b, expr).Ok?
    ensures BuilderInvariant(Advance(b, expr).value, read + [expr])
  {
    AdvanceKeepsShape(b, expr);
    AdvanceKeepsNumbering(b, expr);
    AdvanceAppends(b, expr);
    KeptAppend(read, expr);
  }

  lemma InvariantWellFormed(b: Builder, read: seq<Node>)
    requires BuilderInvariant(b, read)
    ensures WellFormed(b)
  {
  }

  /** Advance reads the statement, then hands the step to the state's
      handler. */
  lemma AdvanceReadsFirst(b: Builder, expr: Node)
    requires WellFormed(b)
    ensures ReadExpression(expr).Fail? ==> Advance(b, expr) == Fail(ReadExpression(expr).error)
    ensures ReadExpression(expr).Ok? ==> Advance(b, expr) == Apply(b, ReadExpression(expr).value)
  {
  }

  lemma CloseKeepsValid(b: Builder, read: seq<Node>)
    requires BuilderInvariant(b, read) && Close(b).Ok?
    ensures BuilderInvariant(Close(b).value, read)
  {
    CloseKeepsShape(b);
    CloseKeepsNumbering(b);
    CloseKeepsStatements(b);
  }

  // ---------------------------------------------------------------------
  // The builder object

  /** The object sectionBuilder() returns.  `read` records, for the proofs,
      the statements accepted so far. */
  class SectionBuilder {
    var sections: seq<Section>
    var state: State
    var current: Option<Section>
    ghost var read: seq<Node>

    function Model(): Builder
      reads this
    {
      Builder(sections, state, current)
    }

    ghost predicate Valid()
      reads this
    {
      BuilderInvariant(Model(), read)
    }

    constructor ()
      ensures Valid() && Model() == Initial() && read == []
    {
      sections := [];
      state := Start;
      current := Some(NewSection(1, ""));
      read := [];
      assert NewSection(1, "") == Initial().current.value;
    }

    /** nextExpression: reads one statement and dispatches on the state. */
    method NextExpression(expr: Node) returns (err: Option<Error>)
      requires Valid()
      modifies this
      ensures Valid()
      ensures err.None? ==> Advance(old(Model()), expr) == Ok(Model()) && read == old(read) + [expr]
      ensures err.Some? ==> Advance(old(Model()), expr) == Fail(err.value) && Model() == old(Model()) && read == old(read)
    {
      ghost var before, seen := Model(), read;
      InvariantWellFormed(before, seen);
      err := Take(expr);
      if err.None? {
        AdvanceKeepsValid(before, seen, expr);
      }
    }

    /** Reads the statement and hands it to the state's handler; `read`
        records it when it is accepted. */
    method Take(expr: Node) returns (err: Option<Error>)
      requires WellFormed(Model())
      modifies this
      ensures err.None? ==> Advance(old(Model()), expr) == Ok(Model()) && read == old(read) + [expr]
      ensures err.Some? ==> Advance(old(Model()), expr) == Fail(err.value) && Model() == old(Model()) && read == old(read)
    {
      AdvanceReadsFirst(Model(), expr);
      var r := ReadExpression(expr);
      if r.Fail? {
        return Some(r.error);
      }
      err := Dispatch(r.value);
      if err.None? {
        read := read + [expr];
      }
    }

    /** The handler for the current state. */
    method Dispatch(step: Step) returns (err: Option<Error>)
      requires WellFormed(Model())
      modifies this
      ensures err.None? ==> Apply(old(Model()), step) == Ok(Model())
      ensures err.Some? ==> Apply(old(Model()), step) == Fail(err.value) && Model() == old(Model())
      ensures read == old(read)
    {
      match state {
        case Start =>
          HandleStart(step);
          err := None;
        case InPlot =>
          HandlePlot(step);
          err := None;
        case NoPlot =>
          err := HandleNoPlot(step);
        case Complete =>
          err := Some(UnexpectedState);
      }
    }

    method HandleStart(step: Step)
      requires WellFormed(Model()) && state == Start
      modifies this
      ensures Model() == StartStep(old(Model()), step) && read == old(read)
    {
      var c := current.value;
      match step {
        case Code(e) => current := Some(c.(body := c.body + [e]));
        case PlotEnd(e) => current := Some(c.(body := c.body + [e]));
        case Rule(_, e) =>
          current := Some(AddToPlot(StartPlot(c, ""), e));
          state := InPlot;
        case PlotMarker(n) =>
          current := Some(StartPlot(c, n));
          state := InPlot;
        case SectionMarker(n) =>
          StartNextSection(n);
      }
    }

    method HandlePlot(step: Step)
      requires WellFormed(Model()) && state == InPlot
      modifies this
      ensures Model() == PlotStep(old(Model()), step) && read == old(read)
    {
      var c := current.value;
      match step {
        case Code(e) => current := Some(AddToPlot(c, e));
        case Rule(_, e) => current := Some(AddToPlot(c, e));
        case PlotEnd(e) =>
          current := Some(AddToPlot(c, e));
          state := NoPlot;
        case PlotMarker(n) =>
          current := Some(StartPlot(c, n));
          state := InPlot;
        case SectionMarker(n) =>
          StartNextSection(n);
      }
    }

    method HandleNoPlot(step: Step) returns (err: Option<Error>)
      requires WellFormed(Model()) && state == NoPlot
      modifies this
      ensures err.None? ==> NoPlotStep(old(Model()), step) == Ok(Model())
      ensures err.Some? ==> NoPlotStep(old(Model()), step) == Fail(err.value) && Model() == old(Model())
      ensures read == old(read)
    {
      var c := current.value;
      match step {
        case Code(_) => return Some(Coded(SON0019));
        case PlotEnd(_) => return Some(Coded(SON0019));
        case Rule(_, e) =>
          current := Some(AddToPlot(StartPlot(c, ""), e));
          state := InPlot;
        case PlotMarker(n) =>
          current := Some(StartPlot(c, n));
          state := InPlot;
        case SectionMarker(n) =>
          StartNextSection(n);
      }
      err := None;
    }

    /** startNextSection: stores the current section and opens the next
        one. */
    method StartNextSection(name: string)
      requires current.Some?
      modifies this
      ensures Model() == OpenSection(old(Model()), name) && read == old(read)
    {
      var c := current.value;
      sections := sections + [c];
      current := Some(NewSection(c.ordinal + 1, name));
      state := Start;
      assert Model() == Builder(old(sections) + [c], Start, Some(NewSection(c.ordinal + 1, name)));
    }

    /** done: stores the current section; the builder accepts nothing
        afterwards. */
    method Done() returns (err: Option<Error>)
      requires Valid()
      modifies this
      ensures Valid() && read == old(read)
      ensures err.None? ==> Close(old(Model())) == Ok(Model())
      ensures err.Some? ==> Close(old(Model())) == Fail(err.value) && Model() == old(Model())
    {
      if state == Complete {
        return Some(BuilderComplete);
      }
      ghost var before := Model();
      sections := sections + [current.value];
      current := None;
      state := Complete;
      CloseKeepsValid(before, read);
      err := None;
    }
  }
}
