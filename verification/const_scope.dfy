/**
 The namespace filter of `analyze_var_decl` tests the raw canonical spelling for a
 leading `Eigen::`. libclang spells a const-qualified type with a leading `const `,
 so a `const auto` or `const auto&` declaration of an expression template is never
 reported, and the `const ` removal inside `is_allowed_auto_type` never takes effect.
 The const-aware rule applies the namespace test after dropping that `const `.
 */
module ConstScope {
  import opened Text
  import opened Results
  import opened Syntax
  import Classifier
  import Analyzer
  import Traversal

  /** As written: a declaration whose canonical type begins with `const ` is never reported. */
  lemma ConstQualifiedNeverReported(n: Node, filename: string, lines: seq<string>)
    requires StartsWith(n.canonicalSpelling, Classifier.ConstPrefix)
    ensures Analyzer.AnalyzeVarDecl(n, filename, lines) == []
  {
    StartsWithExcludes(n.canonicalSpelling, Classifier.ConstPrefix, Analyzer.EigenNamespace);
  }

  /** As written: every spelling that reaches the allowlist has no `const ` to remove. */
  lemma ConstRemovalNeverApplies(canonical: string)
    requires Analyzer.ScopeRule.AsWritten.Admits(canonical)
    ensures RemovePrefix(canonical, Classifier.ConstPrefix) == canonical
  {
    StartsWithExcludes(canonical, Analyzer.EigenNamespace, Classifier.ConstPrefix);
  }

  /** A const-qualified storage type stays allowed under the const-aware rule. */
  lemma ConstStorageStillAllowed(n: Node, filename: string, lines: seq<string>, args: string)
    requires n.canonicalSpelling == Classifier.ConstPrefix + Classifier.MatrixPrefix + args
          || n.canonicalSpelling == Classifier.ConstPrefix + Classifier.ArrayPrefix + args
    ensures Analyzer.AnalyzeVarDeclConstAware(n, filename, lines) == []
  {
    var c := n.canonicalSpelling;
    var storage := c[|Classifier.ConstPrefix|..];
    assert c == Classifier.ConstPrefix + storage;
    RemovePrefixOfAppend(Classifier.ConstPrefix, storage);
    if c == Classifier.ConstPrefix + Classifier.MatrixPrefix + args {
      assert storage == Classifier.MatrixPrefix + args;
      StartsWithAppend(Classifier.MatrixPrefix, args);
    } else {
      assert storage == Classifier.ArrayPrefix + args;
      StartsWithAppend(Classifier.ArrayPrefix, args);
    }
    Classifier.AllowedIff(c);
  }

  /** With no leading `const `, the const-aware rule decides exactly as the code does. */
  lemma ConstAwareAgreesOtherwise(n: Node, filename: string, lines: seq<string>)
    requires !StartsWith(n.canonicalSpelling, Classifier.ConstPrefix)
    ensures Analyzer.AnalyzeVarDeclConstAware(n, filename, lines)
         == Analyzer.AnalyzeVarDecl(n, filename, lines)
  {
  }

  /**
   Under the const-aware rule a `const`-qualified type is reported exactly when the
   unqualified type would be by the code as written.
   */
  lemma ConstAwareSeesThroughConst(n: Node, filename: string, lines: seq<string>, t: string)
    requires !StartsWith(t, Classifier.ConstPrefix)
    ensures var q := n.(canonicalSpelling := Classifier.ConstPrefix + t);
            var u := n.(canonicalSpelling := t);
            (Analyzer.AnalyzeVarDeclConstAware(q, filename, lines) != []
             <==> Analyzer.AnalyzeVarDecl(u, filename, lines) != [])
  {
    var q := Classifier.ConstPrefix + t;
    assert q[..|Classifier.ConstPrefix|] == Classifier.ConstPrefix;
    assert RemovePrefix(q, Classifier.ConstPrefix) == t;
    Classifier.AllowedIff(q);
    Classifier.AllowedIff(t);
  }

  lemma {:induction false} FlatMapAgrees<T>(f: Node -> seq<T>, g: Node -> seq<T>, ns: seq<Node>)
    requires forall k :: 0 <= k < |ns| ==> f(ns[k]) == g(ns[k])
    ensures Traversal.FlatMap(f, ns) == Traversal.FlatMap(g, ns)
    decreases |ns|
  {
    if |ns| > 0 {
      FlatMapAgrees(f, g, ns[1..]);
    }
  }

  /** On a tree with no const-qualified canonical type, both runs report the same issues. */
  lemma CheckFileConstAwareExtends(root: Node, filename: string, lines: seq<string>)
    requires forall m :: m in Traversal.PreOrder(root)
               ==> !StartsWith(m.canonicalSpelling, Classifier.ConstPrefix)
    ensures Traversal.CheckFileConstAware(root, filename, lines)
         == Traversal.CheckFile(root, filename, lines)
  {
    var f := Traversal.Analyser(Analyzer.ConstStripped, filename, lines);
    var g := Traversal.Analyser(Analyzer.AsWritten, filename, lines);
    var ns := Traversal.PreOrder(root);
    forall k | 0 <= k < |ns|
      ensures f(ns[k]) == g(ns[k])
    {
      ConstAwareAgreesOtherwise(ns[k], filename, lines);
    }
    FlatMapAgrees(f, g, ns);
    Traversal.VisitIsPreOrder(root, f);
    Traversal.VisitIsPreOrder(root, g);
  }
}
