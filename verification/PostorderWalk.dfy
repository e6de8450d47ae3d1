/** The stack loop of the feature tool, proved to compute Traversal.Dfs, and two walks it gets wrong. */
module PostorderWalk {
  import opened Lists
  import opened FeatureErrors
  import opened IncludeGraph
  import opened Traversal

  /** A set of names that callers share and update, like a Go map with empty values. */
  class NameSet {
    var names: set<string>

    constructor ()
      ensures names == {}
    {
      names := {};
    }
  }

  /**
   `emitted` and `refused` stand for the two callbacks: the vertices passed to processVertex,
   in order, and those allowVertex turned down, both also when the walk ends in an error.
   */
  method PostorderDFS(g: Graph, seen: NameSet?, origin: string, ignored: set<string>)
    returns (err: Option<Error>, emitted: seq<string>, refused: set<string>)
    modifies seen
    ensures var w := Dfs(g, ignored, if seen == null then {} else old(seen.names), origin);
            && err == w.err && emitted == w.state.emitted && refused == w.state.refused
            && (seen != null ==> seen.names == w.state.seen)
  {
    err, emitted, refused := None, [], {};
    if origin !in g {
      return Some(NotInGraph(origin)), [], {};
    }
    var marks: NameSet;
    if seen == null {
      marks := new NameSet();
    } else {
      marks := seen;
    }
    if origin in marks.names {
      return;
    }

    ghost var start := Start(marks.names, origin);
    ghost var whole := Run(g, ignored, start);
    var hot, stack := {}, [origin];
    marks.names := marks.names + {origin};
    while |stack| > 0
      invariant marks == seen || fresh(marks)
      invariant Run(g, ignored, State(marks.names, hot, stack, emitted, refused)) == whole
      decreases |Names(g) - marks.names|, |stack|
    {
      ghost var s := State(marks.names, hot, stack, emitted, refused);
      StepShrinksIfAny(g, ignored, s);
      var v := stack[|stack| - 1];
      if v in ignored {
        refused := refused + {v};
        stack := stack[..|stack| - 1];
        continue;
      }

      hot := hot + {v};
      var loop, pushed := PushUnseen(Includes(g, v), hot, marks, stack);
      if loop.Some? {
        err := Some(PartOfLoop(loop.value));
        return;
      }
      if |pushed| == |stack| {
        stack := stack[..|stack| - 1];
        hot := hot - {v};
        emitted := emitted + [v];
      } else {
        stack := pushed;
      }
    }
  }

  /** The inner loop: from the last include to the first. `done` is: nothing was pushed. */
  method PushUnseen(edges: seq<string>, hot: set<string>, marks: NameSet, stack: seq<string>)
    returns (loop: Option<string>, pushed: seq<string>)
    modifies marks
    ensures ScanResult(loop, marks.names, pushed) == Scan(edges, |edges|, hot, old(marks.names), stack)
    ensures |stack| <= |pushed| && (|pushed| == |stack| ==> pushed == stack)
  {
    loop, pushed := None, stack;
    var i := |edges|;
    while i > 0
      invariant 0 <= i <= |edges|
      invariant |stack| <= |pushed| && (|pushed| == |stack| ==> pushed == stack)
      invariant Scan(edges, i, hot, marks.names, pushed) == Scan(edges, |edges|, hot, old(marks.names), stack)
    {
      i := i - 1;
      if edges[i] in hot {
        return Some(edges[i]), pushed;
      }
      if edges[i] !in marks.names {
        marks.names := marks.names + {edges[i]};
        pushed := pushed + [edges[i]];
      }
    }
  }

  lemma StepShrinksIfAny(g: Graph, ign: set<string>, s: State)
    requires |s.stack| > 0
    ensures var w := Step(g, ign, s);
            w.err.None? ==>
              || |Names(g) - w.state.seen| < |Names(g) - s.seen|
              || (w.state.seen == s.seen && |w.state.stack| < |s.stack|)
  {
    if Step(g, ign, s).err.None? {
      StepShrinks(g, ign, s);
    }
  }

  // ---- what marking on push costs ----

  /** A vertex all of whose includes are seen and cold is processed at once. */
  lemma StepProcesses(g: Graph, s: State, below: seq<string>, v: string)
    requires s.stack == below + [v]
    requires forall w :: w in Includes(g, v) ==> w in s.seen && w !in s.hot && w != v
    ensures Step(g, {}, s) == Walk(None, s.(stack := below, hot := s.hot - {v}, emitted := s.emitted + [v]))
  {
    var edges := Includes(g, v);
    ScanSettled(edges, |edges|, s.hot + {v}, s.seen, s.stack);
    assert DropLast(s.stack) == below;
    assert s.hot + {v} - {v} == s.hot - {v};
  }

  lemma {:induction false} ScanSettled(edges: seq<string>, n: nat, hot: set<string>, seen: set<string>, stack: seq<string>)
    requires n <= |edges| && forall w :: w in edges ==> w in seen && w !in hot
    ensures Scan(edges, n, hot, seen, stack) == ScanResult(None, seen, stack)
  {
    if n > 0 {
      ScanSettled(edges, n - 1, hot, seen, stack);
    }
  }

  /** A fresh walk whose origin includes exactly two new names pushes the second, then the first. */
  lemma StepPushesTwo(g: Graph, a: string, x: string, y: string)
    requires Includes(g, a) == [x, y] && a != x && a != y && x != y
    ensures Step(g, {}, Start({}, a)) == Walk(None, State({a, x, y}, {a}, [a, y, x], [], {}))
  {
    var s := Start({}, a);
    var r := Scan([x, y], 2, {a}, s.seen, s.stack);
    assert r == Scan([x, y], 1, {a}, s.seen + {y}, s.stack + [y]);
    assert r == Scan([x, y], 0, {a}, s.seen + {y} + {x}, s.stack + [y] + [x]);
    assert s.seen + {y} + {x} == {a, x, y};
    assert s.stack + [y] + [x] == [a, y, x];
    assert s.hot + {a} == {a};
  }

  /** Two includes B and C of the origin, B including C: B is processed first, whatever C includes. */
  lemma WalkOfTwo(g: Graph, a: string, b: string, c: string)
    requires a in g && Includes(g, a) == [b, c] && Includes(g, b) == [c]
    requires Includes(g, c) == [] || Includes(g, c) == [b]
    requires a != b && a != c && b != c
    ensures Dfs(g, {}, {}, a) == Walk(None, State({a, b, c}, {}, [], [b, c, a], {}))
  {
    var s1 := State({a, b, c}, {a}, [a, c, b], [], {});
    var s2 := State({a, b, c}, {a}, [a, c], [b], {});
    var s3 := State({a, b, c}, {a}, [a], [b, c], {});
    var s4 := State({a, b, c}, {}, [], [b, c, a], {});
    StepPushesTwo(g, a, b, c);
    RunStep(g, Start({}, a), s1);
    StepProcesses(g, s1, [a, c], b);
    RunStep(g, s1, s2);
    StepProcesses(g, s2, [a], c);
    RunStep(g, s2, s3);
    StepProcesses(g, s3, [], a);
    assert s3.hot - {a} == {};
    RunStep(g, s3, s4);
  }

  lemma RunStep(g: Graph, s: State, t: State)
    requires |s.stack| > 0 && Step(g, {}, s) == Walk(None, t)
    ensures Run(g, {}, s) == Run(g, {}, t)
  {
  }

  const DIAMOND: Graph := map["A" := ["B", "C"], "B" := ["C"], "C" := []]

  /** No cycle anywhere, and yet B is processed before C, which it includes. */
  lemma IncludeProcessedLate()
    ensures Dfs(DIAMOND, {}, {}, "A").err.None?
    ensures Dfs(DIAMOND, {}, {}, "A").state.emitted == ["B", "C", "A"]
    ensures "C" in Includes(DIAMOND, "B")
  {
    WalkOfTwo(DIAMOND, "A", "B", "C");
  }

  const TWO_LOOP: Graph := map["A" := ["B", "C"], "B" := ["C"], "C" := ["B"]]

  /** B and C include each other; walking from A reports nothing. */
  lemma CycleUnreported()
    ensures Dfs(TWO_LOOP, {}, {}, "A").err.None?
    ensures Reach(TWO_LOOP, {}, "A", "B") && OnCycle(TWO_LOOP, {}, "B")
  {
    WalkOfTwo(TWO_LOOP, "A", "B", "C");
    ReachEdge(TWO_LOOP, {}, "C", "B");
    ReachEdge(TWO_LOOP, {}, "A", "B");
    assert Edge(TWO_LOOP, {}, "B", "C");
  }
}
