/**
 `check_file`'s `visit_node`: a depth-first walk that analyses a node before its
 children and the children from left to right, concatenating what each node yields.
 The walk is written once, over any per-node analysis.
 */
module Traversal {
  import opened Syntax
  import Analyzer
  import Sequences

  /** `visit_node(cursor)`: the node's own findings, then those of its subtrees in order. */
  function Visit<T>(n: Node, f: Node -> seq<T>): seq<T>
    decreases n
  {
    f(n) + VisitAll(n.children, f)
  }

  /** The `for child in cursor.get_children()` loop. */
  function VisitAll<T>(ns: seq<Node>, f: Node -> seq<T>): seq<T>
    decreases ns
  {
    if |ns| == 0 then [] else Visit(ns[0], f) + VisitAll(ns[1..], f)
  }

  /** Every node of the tree in pre-order: parent first, then children left to right. */
  function PreOrder(n: Node): (r: seq<Node>)
    ensures |r| >= 1 && r[0] == n
    decreases n
  {
    [n] + PreOrderAll(n.children)
  }

  function PreOrderAll(ns: seq<Node>): seq<Node>
    decreases ns
  {
    if |ns| == 0 then [] else PreOrder(ns[0]) + PreOrderAll(ns[1..])
  }

  /** `f` applied to each node of `ns` in turn, results concatenated. */
  function FlatMap<T>(f: Node -> seq<T>, ns: seq<Node>): seq<T>
  {
    if |ns| == 0 then [] else f(ns[0]) + FlatMap(f, ns[1..])
  }

  lemma {:induction false} FlatMapAppend<T>(f: Node -> seq<T>, a: seq<Node>, b: seq<Node>)
    ensures FlatMap(f, a + b) == FlatMap(f, a) + FlatMap(f, b)
    decreases |a|
  {
    if |a| > 0 {
      assert (a + b)[1..] == a[1..] + b;
      FlatMapAppend(f, a[1..], b);
      Sequences.AppendAssoc(f(a[0]), FlatMap(f, a[1..]), FlatMap(f, b));
    } else {
      assert a + b == b;
    }
  }

  /** Walking the tree is the same as analysing its pre-order node list node by node. */
  lemma {:induction false} VisitIsPreOrder<T>(n: Node, f: Node -> seq<T>)
    ensures Visit(n, f) == FlatMap(f, PreOrder(n))
    decreases n
  {
    VisitAllIsPreOrder(n.children, f);
    FlatMapAppend(f, [n], PreOrderAll(n.children));
  }

  lemma {:induction false} VisitAllIsPreOrder<T>(ns: seq<Node>, f: Node -> seq<T>)
    ensures VisitAll(ns, f) == FlatMap(f, PreOrderAll(ns))
    decreases ns
  {
    if |ns| > 0 {
      VisitIsPreOrder(ns[0], f);
      VisitAllIsPreOrder(ns[1..], f);
      FlatMapAppend(f, PreOrder(ns[0]), PreOrderAll(ns[1..]));
    }
  }

  /** Walking a list of siblings splits at any point: earlier siblings are reported first. */
  lemma {:induction false} VisitAllAppend<T>(a: seq<Node>, b: seq<Node>, f: Node -> seq<T>)
    ensures VisitAll(a + b, f) == VisitAll(a, f) + VisitAll(b, f)
    decreases |a|
  {
    if |a| > 0 {
      assert (a + b)[1..] == a[1..] + b;
      VisitAllAppend(a[1..], b, f);
      Sequences.AppendAssoc(Visit(a[0], f), VisitAll(a[1..], f), VisitAll(b, f));
    } else {
      assert a + b == b;
    }
  }

  /**
   The findings of the `k`-th child's subtree form one contiguous block, preceded by
   the node's own findings and those of the earlier siblings, followed by the later ones.
   */
  lemma ChildBlock<T>(n: Node, k: nat, f: Node -> seq<T>)
    requires k < |n.children|
    ensures Visit(n, f)
         == f(n) + (VisitAll(n.children[..k], f)
                     + (Visit(n.children[k], f) + VisitAll(n.children[k + 1..], f)))
  {
    var cs, before, after := n.children, n.children[..k], n.children[k + 1..];
    var m := cs[k];
    assert cs == before + ([m] + after);
    calc {
      Visit(n, f);
      f(n) + VisitAll(before + ([m] + after), f);
      { VisitAllAppend(before, [m] + after, f); }
      f(n) + (VisitAll(before, f) + VisitAll([m] + after, f));
      { VisitAllCons(m, after, f); }
      f(n) + (VisitAll(before, f) + (Visit(m, f) + VisitAll(after, f)));
    }
  }

  lemma VisitAllCons<T>(m: Node, ns: seq<Node>, f: Node -> seq<T>)
    ensures VisitAll([m] + ns, f) == Visit(m, f) + VisitAll(ns, f)
  {
    assert ([m] + ns)[1..] == ns;
  }

  /** The per-node analysis `check_file` applies. */
  function Analyser(rule: Analyzer.ScopeRule, filename: string, lines: seq<string>): Node -> seq<Issue>
  {
    n => Analyzer.Analyze(rule, n, filename, lines)
  }

  /** The nodes of `ns` that satisfy `p`, in order. */
  function Select(p: Node -> bool, ns: seq<Node>): seq<Node>
  {
    if |ns| == 0 then [] else (if p(ns[0]) then [ns[0]] else []) + Select(p, ns[1..])
  }

  /** The selected nodes are exactly the nodes of `ns` that satisfy `p`. */
  lemma {:induction false} SelectMembers(p: Node -> bool, ns: seq<Node>)
    ensures forall k :: 0 <= k < |Select(p, ns)| ==> Select(p, ns)[k] in ns && p(Select(p, ns)[k])
    ensures forall m :: m in ns && p(m) ==> m in Select(p, ns)
    decreases |ns|
  {
    if |ns| > 0 {
      SelectMembers(p, ns[1..]);
      var r, rest := Select(p, ns), Select(p, ns[1..]);
      var d := if p(ns[0]) then 1 else 0;
      assert r == (if p(ns[0]) then [ns[0]] else []) + rest;
      forall k | d <= k < |r|
        ensures r[k] in ns && p(r[k])
      {
        assert r[k] == rest[k - d] && rest[k - d] in ns[1..];
      }
      forall m | m in ns && p(m)
        ensures m in r
      {
        if m != ns[0] {
          assert m in ns[1..];
          assert m in rest;
        }
      }
    }
  }

  /** The nodes of `ns` that `rule` reports, in order. */
  function ReportedNodes(rule: Analyzer.ScopeRule, ns: seq<Node>, filename: string): (r: seq<Node>)
    ensures forall k :: 0 <= k < |r| ==> r[k] in ns && Analyzer.Reported(rule, r[k], filename)
    ensures forall m :: m in ns && Analyzer.Reported(rule, m, filename) ==> m in r
  {
    var p := m => Analyzer.Reported(rule, m, filename);
    SelectMembers(p, ns);
    Select(p, ns)
  }

  /**
   When each node yields at most one result, and yields one exactly when it satisfies
   `p`, the results are those of the selected nodes, one each, in order.
   */
  lemma {:induction false} FlatMapSelects<T>(f: Node -> seq<T>, p: Node -> bool, ns: seq<Node>)
    requires forall m :: m in ns ==> |f(m)| <= 1 && (f(m) != [] <==> p(m))
    ensures var out, sel := FlatMap(f, ns), Select(p, ns);
            && |out| == |sel|
            && forall k :: 0 <= k < |out| ==> f(sel[k]) == [out[k]]
    decreases |ns|
  {
    if |ns| > 0 {
      var out, sel := FlatMap(f, ns), Select(p, ns);
      var later, laterSel := FlatMap(f, ns[1..]), Select(p, ns[1..]);
      var head := f(ns[0]);
      assert forall m :: m in ns[1..] ==> m in ns;
      FlatMapSelects(f, p, ns[1..]);
      assert out == head + later;
      if p(ns[0]) {
        assert |head| == 1 && sel == [ns[0]] + laterSel;
        assert head == [out[0]] && sel[0] == ns[0];
        forall k | 1 <= k < |out|
          ensures f(sel[k]) == [out[k]]
        {
          Sequences.IndexPastHead(head, later, k);
          Sequences.IndexPastHead([ns[0]], laterSel, k);
          var j := k - 1;
          assert out[k] == later[j];
          assert sel[k] == laterSel[j];
          assert 0 <= j < |later|;
          assert f(laterSel[j]) == [later[j]];
        }
      } else {
        assert head == [] && sel == laterSel && out == later;
      }
    }
  }

  /** `check_file` as written: the issues of every node, in pre-order. */
  function CheckFile(root: Node, filename: string, lines: seq<string>): (issues: seq<Issue>)
  {
    Visit(root, Analyser(Analyzer.AsWritten, filename, lines))
  }

  /** `check_file` with the const-aware namespace test. */
  function CheckFileConstAware(root: Node, filename: string, lines: seq<string>): (issues: seq<Issue>)
  {
    Visit(root, Analyser(Analyzer.ConstStripped, filename, lines))
  }

  /** One issue per reported node of `ns`, in the order of `ns`. */
  lemma IssuesMatchReportedNodes(rule: Analyzer.ScopeRule, ns: seq<Node>,
                                 filename: string, lines: seq<string>)
    ensures var issues := FlatMap(Analyser(rule, filename, lines), ns);
            var reported := ReportedNodes(rule, ns, filename);
            && |issues| == |reported|
            && forall k :: 0 <= k < |issues| ==>
                 Analyzer.Analyze(rule, reported[k], filename, lines) == [issues[k]]
  {
    var f := Analyser(rule, filename, lines);
    var p := m => Analyzer.Reported(rule, m, filename);
    forall m | m in ns
      ensures |f(m)| <= 1 && (f(m) != [] <==> p(m))
    {
    }
    FlatMapSelects(f, p, ns);
  }

  /**
   The issue list of a run: exactly one issue for each reported node of the tree,
   in pre-order, each built from its own node.
   */
  lemma CheckFileReportsInPreOrder(root: Node, filename: string, lines: seq<string>)
    ensures var issues := CheckFile(root, filename, lines);
            var reported := ReportedNodes(Analyzer.AsWritten, PreOrder(root), filename);
            && |issues| == |reported|
            && forall k :: 0 <= k < |issues| ==>
                 && Analyzer.AnalyzeVarDecl(reported[k], filename, lines) == [issues[k]]
                 && issues[k].line == reported[k].startLine
                 && issues[k].column == reported[k].startColumn
                 && issues[k].variable == reported[k].spelling
  {
    VisitIsPreOrder(root, Analyser(Analyzer.AsWritten, filename, lines));
    IssuesMatchReportedNodes(Analyzer.AsWritten, PreOrder(root), filename, lines);
  }

  /** Number of nodes in a tree. */
  function Size(n: Node): (s: nat)
    ensures s >= 1
    decreases n
  {
    1 + ForestSize(n.children)
  }

  function ForestSize(ns: seq<Node>): nat
    decreases ns
  {
    if |ns| == 0 then 0 else Size(ns[0]) + ForestSize(ns[1..])
  }

  lemma {:induction false} ForestSizeAppend(a: seq<Node>, b: seq<Node>)
    ensures ForestSize(a + b) == ForestSize(a) + ForestSize(b)
    decreases |a|
  {
    if |a| > 0 {
      assert (a + b)[1..] == a[1..] + b;
      ForestSizeAppend(a[1..], b);
    } else {
      assert a + b == b;
    }
  }

  /**
   The same walk with an explicit work list instead of recursion, so that its stack
   use does not depend on how deeply the source nests. It yields the same findings
   in the same order.
   */
  method VisitIterative<T>(root: Node, f: Node -> seq<T>) returns (out: seq<T>)
    ensures out == Visit(root, f)
  {
    out := [];
    var work := [root];
    assert VisitAll(work, f) == Visit(root, f) + VisitAll([], f);
    while |work| > 0
      invariant out + VisitAll(work, f) == Visit(root, f)
      decreases ForestSize(work)
    {
      var n := work[0];
      var rest := work[1..];
      ForestSizeAppend(n.children, rest);
      VisitAllAppend(n.children, rest, f);
      assert ForestSize(work) == Size(n) + ForestSize(rest);
      out := out + f(n);
      work := n.children + rest;
    }
  }

  /** `check_file` by the work-list walk: the same issues as the recursive walk. */
  method CheckFileIterative(root: Node, filename: string, lines: seq<string>)
    returns (issues: seq<Issue>)
    ensures issues == CheckFile(root, filename, lines)
  {
    issues := VisitIterative(root, Analyser(Analyzer.AsWritten, filename, lines));
  }
}
