/** Shared helpers: adding names to a dictionary used as a set, and the
    depth-first topological sort with cycle reporting. */
module Common {
  import opened Errors
  import opened Text

  /** addToSet: every element of `items` becomes a key of the dictionary;
      the keys it already had stay. */
  method AddToSet(items: seq<string>, target: set<string>) returns (r: set<string>)
    ensures r == target + (set x | x in items)
  {
    r := target;
    var i := 0;
    while i < |items|
      invariant 0 <= i <= |items|
      invariant r == target + (set x | x in items[..i])
    {
      assert items[..i + 1] == items[..i] + [items[i]];
      r := r + {items[i]};
      i := i + 1;
    }
    assert items[..i] == items;
  }

  // ---------------------------------------------------------------------
  // Graphs given by their adjacency lists

  /** Every adjacent node of a node of the graph is itself a node of it. */
  ghost predicate Closed(graph: map<string, seq<string>>)
  {
    forall k, n :: k in graph && n in graph[k] ==> n in graph
  }

  /** `w` follows edges of the graph. */
  ghost predicate IsWalk(graph: map<string, seq<string>>, w: seq<string>)
  {
    |w| <= 1 ||
    (IsWalk(graph, w[..|w| - 1]) && w[|w| - 2] in graph && w[|w| - 1] in graph[w[|w| - 2]])
  }

  /** A walk stays a walk when its first nodes are dropped. */
  lemma {:induction false} WalkSuffix(graph: map<string, seq<string>>, w: seq<string>, j: nat)
    requires IsWalk(graph, w) && j < |w|
    ensures IsWalk(graph, w[j..])
  {
    if |w| - j > 1 {
      var init := w[..|w| - 1];
      WalkSuffix(graph, init, j);
      assert w[j..][..|w[j..]| - 1] == init[j..];
    }
  }

  ghost predicate Reachable(graph: map<string, seq<string>>, start: string, n: string)
  {
    exists w :: IsWalk(graph, w) && |w| > 0 && w[0] == start && w[|w| - 1] == n
  }

  /** A walk from `start` whose last node already occurs earlier in it: the
      evidence the sort reports when it meets a node still in progress. */
  ghost predicate CyclePath(graph: map<string, seq<string>>, start: string, p: seq<string>)
  {
    IsWalk(graph, p) && |p| > 0 && p[0] == start && p[|p| - 1] in p[..|p| - 1]
  }

  /** No walk of one edge or more returns to the node it started from. */
  ghost predicate Acyclic(graph: map<string, seq<string>>)
  {
    forall w :: IsWalk(graph, w) && |w| >= 2 ==> w[0] != w[|w| - 1]
  }

  /** Every node is preceded by all of its adjacent nodes. */
  ghost predicate PostOrder(graph: map<string, seq<string>>, out: seq<string>)
  {
    forall i, n :: 0 <= i < |out| && out[i] in graph && n in graph[out[i]] ==> n in out[..i]
  }

  /** A reported cycle path contains a real cycle: the graph is not acyclic. */
  lemma CyclePathShowsCycle(graph: map<string, seq<string>>, start: string, p: seq<string>)
    requires CyclePath(graph, start, p)
    ensures !Acyclic(graph)
  {
    var j :| 0 <= j < |p| - 1 && p[j] == p[|p| - 1];
    var w := p[j..];
    WalkSuffix(graph, p, j);
    assert |w| >= 2 && w[0] == w[|w| - 1];
  }

  lemma WalkExtend(graph: map<string, seq<string>>, w: seq<string>, n: string)
    requires IsWalk(graph, w) && w != [] && w[|w| - 1] in graph && n in graph[w[|w| - 1]]
    ensures IsWalk(graph, w + [n])
  {
    assert (w + [n])[..|w|] == w;
  }

  lemma ReachableByWalk(graph: map<string, seq<string>>, start: string, w: seq<string>)
    requires IsWalk(graph, w) && w != [] && w[0] == start
    ensures Reachable(graph, start, w[|w| - 1])
  {
  }

  /** Appending a node whose adjacent nodes are all out keeps the order. */
  lemma PostOrderAppend(graph: map<string, seq<string>>, out: seq<string>, key: string)
    requires PostOrder(graph, out)
    requires key in graph ==> forall n :: n in graph[key] ==> n in out
    ensures PostOrder(graph, out + [key])
  {
    var out' := out + [key];
    forall i, n | 0 <= i < |out'| && out'[i] in graph && n in graph[out'[i]]
      ensures n in out'[..i]
    {
      if i < |out| {
        assert out'[..i] == out[..i];
      } else {
        assert out'[..i] == out;
      }
    }
  }

  /** The breadcrumb text after `key`: appended after " > ", except that a
      key following an empty text replaces it. */
  function Extend(crumbs: string, key: string): string
  {
    if crumbs != "" then crumbs + " > " + key else key
  }

  /** The breadcrumb text the sort has built when it reaches the end of
      `path`. */
  function Crumbs(path: seq<string>): string
  {
    if path == [] then "" else Extend(Crumbs(path[..|path| - 1]), path[|path| - 1])
  }

  /** The nodes on a path, as a set. */
  ghost function Elements(path: seq<string>): set<string>
  {
    set x | x in path
  }

  lemma ElementsAppend(path: seq<string>, key: string)
    ensures Elements(path + [key]) == Elements(path) + {key}
  {
  }

  /** Meeting a node that is already on the path closes a cycle path. */
  lemma InProgressCloses(graph: map<string, seq<string>>, start: string, path: seq<string>, key: string)
    requires IsWalk(graph, path + [key]) && (path + [key])[0] == start
    requires key in Elements(path)
    ensures CyclePath(graph, start, path + [key])
  {
    assert (path + [key])[..|path|] == path;
  }

  lemma CrumbsAppend(path: seq<string>, key: string)
    ensures Crumbs(path + [key]) == Extend(Crumbs(path), key)
  {
    assert (path + [key])[..|path|] == path;
  }

  /** With non-empty keys the breadcrumb text is the path joined by " > ". */
  lemma {:induction false} CrumbsIsJoin(path: seq<string>)
    requires forall i :: 0 <= i < |path| ==> path[i] != ""
    ensures Crumbs(path) == Join(path, " > ")
  {
    if |path| > 1 {
      var init := path[..|path| - 1];
      CrumbsIsJoin(init);
      CrumbsNonEmpty(init);
    }
  }

  lemma {:induction false} CrumbsNonEmpty(path: seq<string>)
    requires forall i :: 0 <= i < |path| ==> path[i] != ""
    requires path != []
    ensures Crumbs(path) != ""
  {
    if Crumbs(path[..|path| - 1]) != "" {
      assert |Crumbs(path)| > |Crumbs(path[..|path| - 1])|;
    }
  }

  /** The marks and output of a sort in progress: `permanent` (done) and
      `temporary` (entered) keys, and the output array. */
  datatype Marks = Marks(permanent: set<string>, temporary: set<string>, output: seq<string>)

  /** topologicaSortCore as a function of the marks, with a reportError
      that throws (the only one the compiler passes): the marks after the
      visit of `key`, or the error. */
  function VisitSpec(graph: map<string, seq<string>>, key: string, crumbs: string, m: Marks): (r: Result<Marks>)
    requires Closed(graph) && key in graph && m.temporary <= graph.Keys
    ensures r.Ok? ==> m.temporary <= r.value.temporary <= graph.Keys
    decreases |graph.Keys - m.temporary|, 1, 0
  {
    var here := Extend(crumbs, key);
    if key in m.permanent then Ok(m)
    else if key in m.temporary then Fail(Cycle(key, here))
    else
      var entered := m.(temporary := m.temporary + {key});
      SubsetDifferenceSmaller(graph.Keys, m.temporary, entered.temporary, key);
      match VisitAllSpec(graph, graph[key], here, entered)
      case Fail(e) => Fail(e)
      case Ok(m') => Ok(m'.(permanent := m'.permanent + {key}, output := m'.output + [key]))
  }

  /** The `forEach` over adjacent nodes: visits `nodes` in order, stopping at
      the first error. */
  function VisitAllSpec(graph: map<string, seq<string>>, nodes: seq<string>, crumbs: string, m: Marks): (r: Result<Marks>)
    requires Closed(graph) && (forall n :: n in nodes ==> n in graph) && m.temporary <= graph.Keys
    ensures r.Ok? ==> m.temporary <= r.value.temporary <= graph.Keys
    decreases |graph.Keys - m.temporary|, 2, |nodes|
  {
    if nodes == [] then Ok(m)
    else
      match VisitSpec(graph, nodes[0], crumbs, m)
      case Fail(e) => Fail(e)
      case Ok(m') =>
        SubsetDifferenceNotLarger(graph.Keys, m.temporary, m'.temporary);
        VisitAllSpec(graph, nodes[1..], crumbs, m')
  }

  /** The whole sort from `start`. */
  function SortSpec(graph: map<string, seq<string>>, start: string): (r: Result<seq<string>>)
    requires Closed(graph) && start in graph
  {
    match VisitSpec(graph, start, "", Marks({}, {}, []))
    case Fail(e) => Fail(e)
    case Ok(m) => Ok(m.output)
  }

  /** The invariant of a sort in progress. */
  ghost predicate SortInvariant(graph: map<string, seq<string>>, start: string, m: Marks)
  {
    && Closed(graph)
    && start in graph
    && m.permanent <= m.temporary <= graph.Keys
    && NoDuplicates(m.output)
    && m.permanent == Elements(m.output)
    && (forall t :: t in m.temporary ==> Reachable(graph, start, t))
    && PostOrder(graph, m.output)
  }

  /** The error reportError throws: the key and the path text of a real
      cycle path. */
  ghost predicate CycleError(graph: map<string, seq<string>>, start: string, e: Error)
  {
    exists p :: CyclePath(graph, start, p) && e == Cycle(p[|p| - 1], Crumbs(p))
  }

  /** Marking a reachable node as in progress keeps the invariant. */
  lemma EnterKeepsInvariant(graph: map<string, seq<string>>, start: string, m: Marks, key: string)
    requires SortInvariant(graph, start, m)
    requires key in graph && Reachable(graph, start, key)
    ensures SortInvariant(graph, start, m.(temporary := m.temporary + {key}))
  {
  }

  /** Finishing an in-progress node whose adjacent nodes are all done keeps
      the invariant. */
  lemma FinishKeepsInvariant(graph: map<string, seq<string>>, start: string, m: Marks, key: string)
    requires SortInvariant(graph, start, m)
    requires key in m.temporary && key !in m.permanent
    requires forall n :: n in graph[key] ==> n in m.permanent
    ensures SortInvariant(graph, start, m.(permanent := m.permanent + {key}, output := m.output + [key]))
  {
    PostOrderAppend(graph, m.output, key);
  }

  /** What a visit does to the marks whatever the graph: the done keys only
      grow, the in-progress keys are as before, and the visited key is done
      (and output last, when it was new). */
  lemma {:induction false} VisitGrows(graph: map<string, seq<string>>, key: string, crumbs: string, m: Marks)
    requires Closed(graph) && key in graph && m.permanent <= m.temporary <= graph.Keys
    ensures var r := VisitSpec(graph, key, crumbs, m);
            r.Ok? ==> && m.permanent <= r.value.permanent <= r.value.temporary
                      && r.value.temporary - r.value.permanent == m.temporary - m.permanent
                      && key in r.value.permanent
                      && (key !in m.temporary ==> r.value.output != [] && r.value.output[|r.value.output| - 1] == key)
    decreases |graph.Keys - m.temporary|, 1, 0
  {
    if key !in m.temporary {
      var entered := m.(temporary := m.temporary + {key});
      SubsetDifferenceSmaller(graph.Keys, m.temporary, entered.temporary, key);
      VisitAllGrows(graph, graph[key], Extend(crumbs, key), entered);
      var r := VisitAllSpec(graph, graph[key], Extend(crumbs, key), entered);
      if r.Ok? {
        FinishedLeavesProgress(r.value.temporary, r.value.permanent, m.temporary, m.permanent, key);
      }
    }
  }

  lemma {:induction false} VisitAllGrows(graph: map<string, seq<string>>, nodes: seq<string>, crumbs: string, m: Marks)
    requires Closed(graph) && (forall n :: n in nodes ==> n in graph) && m.permanent <= m.temporary <= graph.Keys
    ensures var r := VisitAllSpec(graph, nodes, crumbs, m);
            r.Ok? ==> && m.permanent <= r.value.permanent <= r.value.temporary
                      && r.value.temporary - r.value.permanent == m.temporary - m.permanent
                      && (forall n :: n in nodes ==> n in r.value.permanent)
    decreases |graph.Keys - m.temporary|, 2, |nodes|
  {
    if nodes != [] {
      assert nodes[0] in nodes;
      VisitGrows(graph, nodes[0], crumbs, m);
      var r := VisitSpec(graph, nodes[0], crumbs, m);
      if r.Ok? {
        SubsetDifferenceNotLarger(graph.Keys, m.temporary, r.value.temporary);
        assert forall n :: n in nodes[1..] ==> n in nodes;
        VisitAllGrows(graph, nodes[1..], crumbs, r.value);
        assert nodes == [nodes[0]] + nodes[1..];
      }
    }
  }

  /** A visit of a key reached along a walk from the start keeps the
      invariant. */
  lemma {:induction false} VisitKeepsInvariant(graph: map<string, seq<string>>, start: string, key: string,
                                               crumbs: string, path: seq<string>, m: Marks)
    requires SortInvariant(graph, start, m) && key in graph
    requires IsWalk(graph, path + [key]) && (path + [key])[0] == start
    ensures var r := VisitSpec(graph, key, crumbs, m);
            r.Ok? ==> SortInvariant(graph, start, r.value)
    decreases |graph.Keys - m.temporary|, 1, 1
  {
    if key in m.permanent {
      assert VisitSpec(graph, key, crumbs, m) == Ok(m);
    } else if key in m.temporary {
      assert VisitSpec(graph, key, crumbs, m).Fail?;
    } else {
      ReachableByWalk(graph, start, path + [key]);
      EnterKeepsInvariant(graph, start, m, key);
      FinishKeepsInvariantAfterAll(graph, start, key, crumbs, path, m);
    }
  }

  /** The visit of a new key: entered, its adjacent nodes visited, then
      finished. */
  lemma {:induction false} FinishKeepsInvariantAfterAll(graph: map<string, seq<string>>, start: string, key: string,
                                                        crumbs: string, path: seq<string>, m: Marks)
    requires key in graph && key !in m.temporary && m.permanent <= m.temporary
    requires SortInvariant(graph, start, m.(temporary := m.temporary + {key}))
    requires IsWalk(graph, path + [key]) && (path + [key])[0] == start
    ensures var r := VisitSpec(graph, key, crumbs, m);
            r.Ok? ==> SortInvariant(graph, start, r.value)
    decreases |graph.Keys - m.temporary|, 1, 0
  {
    var entered := m.(temporary := m.temporary + {key});
    SubsetDifferenceSmaller(graph.Keys, m.temporary, entered.temporary, key);
    VisitAllKeepsInvariant(graph, start, graph[key], Extend(crumbs, key), path + [key], entered);
    VisitAllGrows(graph, graph[key], Extend(crumbs, key), entered);
    var r := VisitAllSpec(graph, graph[key], Extend(crumbs, key), entered);
    if r.Ok? {
      assert key in entered.temporary - entered.permanent;
      FinishKeepsInvariant(graph, start, r.value, key);
      assert VisitSpec(graph, key, crumbs, m)
          == Ok(r.value.(permanent := r.value.permanent + {key}, output := r.value.output + [key]));
    } else {
      assert VisitSpec(graph, key, crumbs, m).Fail?;
    }
  }

  lemma {:induction false} VisitAllKeepsInvariant(graph: map<string, seq<string>>, start: string, nodes: seq<string>,
                                                  crumbs: string, path: seq<string>, m: Marks)
    requires SortInvariant(graph, start, m)
    requires IsWalk(graph, path) && path != [] && path[0] == start && path[|path| - 1] in graph
    requires forall n :: n in nodes ==> n in graph[path[|path| - 1]]
    ensures var r := VisitAllSpec(graph, nodes, crumbs, m);
            r.Ok? ==> SortInvariant(graph, start, r.value)
    decreases |graph.Keys - m.temporary|, 2, |nodes|
  {
    if nodes != [] {
      assert nodes[0] in nodes;
      WalkExtend(graph, path, nodes[0]);
      VisitKeepsInvariant(graph, start, nodes[0], crumbs, path, m);
      var r := VisitSpec(graph, nodes[0], crumbs, m);
      if r.Ok? {
        SubsetDifferenceNotLarger(graph.Keys, m.temporary, r.value.temporary);
        assert forall n :: n in nodes[1..] ==> n in nodes;
        VisitAllKeepsInvariant(graph, start, nodes[1..], crumbs, path, r.value);
      }
    }
  }

  /** When the in-progress keys are exactly the nodes of the walk that led
      to `key`, a visit fails only at a real cycle, and reports it with the
      walk's breadcrumb text. */
  lemma {:induction false} VisitFailsOnCycle(graph: map<string, seq<string>>, start: string, key: string,
                                             path: seq<string>, m: Marks)
    requires Closed(graph) && key in graph && m.permanent <= m.temporary <= graph.Keys
    requires IsWalk(graph, path + [key]) && (path + [key])[0] == start
    requires m.temporary - m.permanent == Elements(path)
    ensures var r := VisitSpec(graph, key, Crumbs(path), m);
            r.Fail? ==> CycleError(graph, start, r.error)
    decreases |graph.Keys - m.temporary|, 1, 1
  {
    if key in m.permanent {
      assert VisitSpec(graph, key, Crumbs(path), m) == Ok(m);
    } else if key in m.temporary {
      assert key in Elements(path);
      InProgressCycleError(graph, start, path, key);
      assert VisitSpec(graph, key, Crumbs(path), m) == Fail(Cycle(key, Extend(Crumbs(path), key)));
    } else {
      EnterFailsOnCycle(graph, start, key, path, m);
    }
  }

  /** Meeting a key that is on the walk that led to it is a real cycle. */
  lemma InProgressCycleError(graph: map<string, seq<string>>, start: string, path: seq<string>, key: string)
    requires IsWalk(graph, path + [key]) && (path + [key])[0] == start
    requires key in Elements(path)
    ensures CycleError(graph, start, Cycle(key, Extend(Crumbs(path), key)))
  {
    InProgressCloses(graph, start, path, key);
    CrumbsAppend(path, key);
    var p := path + [key];
    assert p[|p| - 1] == key;
  }

  /** The visit of a new key fails only where the visit of its adjacent
      nodes fails. */
  lemma {:induction false} EnterFailsOnCycle(graph: map<string, seq<string>>, start: string, key: string,
                                             path: seq<string>, m: Marks)
    requires Closed(graph) && key in graph && m.permanent <= m.temporary <= graph.Keys && key !in m.temporary
    requires IsWalk(graph, path + [key]) && (path + [key])[0] == start
    requires m.temporary - m.permanent == Elements(path)
    ensures var r := VisitSpec(graph, key, Crumbs(path), m);
            r.Fail? ==> CycleError(graph, start, r.error)
    decreases |graph.Keys - m.temporary|, 1, 0
  {
    var here := path + [key];
    CrumbsAppend(path, key);
    var entered := m.(temporary := m.temporary + {key});
    SubsetDifferenceSmaller(graph.Keys, m.temporary, entered.temporary, key);
    assert entered.temporary - entered.permanent == Elements(here) by {
      ElementsAppend(path, key);
    }
    assert here[|here| - 1] == key;
    VisitAllFailsOnCycle(graph, start, graph[key], here, entered);
    var r := VisitAllSpec(graph, graph[key], Crumbs(here), entered);
    if r.Fail? {
      assert VisitSpec(graph, key, Crumbs(path), m) == r;
    } else {
      assert VisitSpec(graph, key, Crumbs(path), m).Ok?;
    }
  }

  lemma {:induction false} VisitAllFailsOnCycle(graph: map<string, seq<string>>, start: string, nodes: seq<string>,
                                                path: seq<string>, m: Marks)
    requires Closed(graph) && m.permanent <= m.temporary <= graph.Keys
    requires IsWalk(graph, path) && path != [] && path[0] == start && path[|path| - 1] in graph
    requires forall n :: n in nodes ==> n in graph[path[|path| - 1]]
    requires m.temporary - m.permanent == Elements(path)
    ensures var r := VisitAllSpec(graph, nodes, Crumbs(path), m);
            r.Fail? ==> CycleError(graph, start, r.error)
    decreases |graph.Keys - m.temporary|, 2, |nodes|
  {
    if nodes != [] {
      assert nodes[0] in nodes;
      WalkExtend(graph, path, nodes[0]);
      VisitFailsOnCycle(graph, start, nodes[0], path, m);
      VisitGrows(graph, nodes[0], Crumbs(path), m);
      var r := VisitSpec(graph, nodes[0], Crumbs(path), m);
      if r.Ok? {
        SubsetDifferenceNotLarger(graph.Keys, m.temporary, r.value.temporary);
        assert forall n :: n in nodes[1..] ==> n in nodes;
        VisitAllFailsOnCycle(graph, start, nodes[1..], path, r.value);
      }
    }
  }

  /** The object the sort updates: the graph it walks and its marks. */
  class SortContext {
    const graph: map<string, seq<string>>
    var permanent: set<string>
    var temporary: set<string>
    var output: seq<string>

    function State(): Marks
      reads this
    {
      Marks(permanent, temporary, output)
    }

    constructor (graph: map<string, seq<string>>)
      ensures this.graph == graph && State() == Marks({}, {}, [])
    {
      this.graph := graph;
      permanent := {};
      temporary := {};
      output := [];
    }

    /** topologicaSortCore: visits `key` after the path whose text is
        `crumbs`. */
    method Visit(key: string, crumbs: string) returns (err: Option<Error>)
      requires Closed(graph) && key in graph && temporary <= graph.Keys
      modifies this
      ensures err.None? ==> VisitSpec(graph, key, crumbs, old(State())) == Ok(State())
      ensures err.Some? ==> VisitSpec(graph, key, crumbs, old(State())) == Fail(err.value)
      decreases |graph.Keys - temporary|, 1
    {
      var here := if crumbs != "" then crumbs + " > " + key else key;
      if key in permanent {
        return None;
      }
      if key in temporary {
        return Some(Cycle(key, here));
      }
      ghost var before := temporary;
      temporary := temporary + {key};
      SubsetDifferenceSmaller(graph.Keys, before, temporary, key);
      err := VisitAll(graph[key], here);
      if err.None? {
        permanent := permanent + {key};
        output := output + [key];
      }
    }

    /** `nodes.forEach(node => topologicaSortCore(context, node, crumbs))`;
        the first error ends it. */
    method VisitAll(nodes: seq<string>, crumbs: string) returns (err: Option<Error>)
      requires Closed(graph) && (forall n :: n in nodes ==> n in graph) && temporary <= graph.Keys
      modifies this
      ensures err.None? ==> VisitAllSpec(graph, nodes, crumbs, old(State())) == Ok(State())
      ensures err.Some? ==> VisitAllSpec(graph, nodes, crumbs, old(State())) == Fail(err.value)
      decreases |graph.Keys - temporary|, 2
    {
      var i := 0;
      while i < |nodes|
        invariant 0 <= i <= |nodes|
        invariant old(temporary) <= temporary <= graph.Keys
        invariant VisitAllSpec(graph, nodes, crumbs, old(State())) == VisitAllSpec(graph, nodes[i..], crumbs, State())
      {
        ghost var before := State();
        SubsetDifferenceNotLarger(graph.Keys, old(temporary), temporary);
        err := Visit(nodes[i], crumbs);
        if err.Some? {
          return;
        }
        assert nodes[i..][1..] == nodes[i + 1..];
        i := i + 1;
      }
      err := None;
    }
  }

  /** Marking the key entered last as done restores the in-progress set. */
  lemma FinishedLeavesProgress(t': set<string>, p': set<string>, t: set<string>, p: set<string>, key: string)
    requires t' - p' == (t + {key}) - p && key !in t && p <= t
    ensures t' - (p' + {key}) == t - p
  {
    forall x | x in t - p ensures x in t' - (p' + {key}) {
      assert x in (t + {key}) - p;
    }
    forall x | x in t' - (p' + {key}) ensures x in t - p {
      assert x in t' - p';
    }
  }

  lemma SubsetDifferenceSmaller(keys: set<string>, a: set<string>, b: set<string>, k: string)
    requires a <= b && k in b && k !in a && k in keys
    ensures |keys - b| < |keys - a|
  {
    var big, small := keys - a, keys - b;
    assert small <= big && k in big - small;
    assert big == small + (big - small);
    assert small * (big - small) == {};
    assert |big - small| >= 1;
  }

  lemma SubsetDifferenceNotLarger(keys: set<string>, a: set<string>, b: set<string>)
    requires a <= b
    ensures |keys - b| <= |keys - a|
  {
    var big, small := keys - a, keys - b;
    assert big == small + (big - small);
    assert small * (big - small) == {};
  }

  /** topologicaSort with a throwing reportError: the nodes reachable from
      `start`, each output after the nodes it leads to, or the cycle error. */
  method TopologicalSort(graph: map<string, seq<string>>, start: string) returns (r: Result<seq<string>>)
    requires Closed(graph) && start in graph
    ensures r == SortSpec(graph, start)
    ensures r.Ok? ==> NoDuplicates(r.value) && r.value != [] && r.value[|r.value| - 1] == start
    ensures r.Ok? ==> forall x :: x in r.value ==> Reachable(graph, start, x)
    ensures r.Ok? ==> PostOrder(graph, r.value)
    ensures r.Fail? ==> CycleError(graph, start, r.error)
    ensures Acyclic(graph) ==> r.Ok?
  {
    var context := new SortContext(graph);
    var err := context.Visit(start, "");
    if err.Some? {
      r := Fail(err.value);
    } else {
      r := Ok(context.output);
    }
    SortSound(graph, start);
  }

  /** What the sort promises, for every closed graph. */
  lemma SortSound(graph: map<string, seq<string>>, start: string)
    requires Closed(graph) && start in graph
    ensures var r := SortSpec(graph, start);
            && (r.Ok? ==> NoDuplicates(r.value) && r.value != [] && r.value[|r.value| - 1] == start)
            && (r.Ok? ==> forall x :: x in r.value ==> Reachable(graph, start, x))
            && (r.Ok? ==> PostOrder(graph, r.value))
            && (r.Fail? ==> CycleError(graph, start, r.error))
            && (Acyclic(graph) ==> r.Ok?)
  {
    var m := Marks({}, {}, []);
    assert IsWalk(graph, [] + [start]);
    assert Elements([]) == {};
    VisitGrows(graph, start, "", m);
    VisitKeepsInvariant(graph, start, start, "", [], m);
    VisitFailsOnCycle(graph, start, start, [], m);
    var r := VisitSpec(graph, start, "", m);
    if r.Fail? {
      var p :| CyclePath(graph, start, p) && r.error == Cycle(p[|p| - 1], Crumbs(p));
      CyclePathShowsCycle(graph, start, p);
    }
  }
}
