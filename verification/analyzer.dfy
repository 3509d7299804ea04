/**
 `analyze_var_decl`: the per-node decision. A node yields an issue only when it is
 a variable declaration that starts in the file under analysis, whose tokens contain
 `auto`, and whose canonical type is an Eigen type outside the storage allowlist.
 */
module Analyzer {
  import opened Text
  import opened Results
  import opened Syntax
  import Classifier
  import Snippet

  const AutoToken := "auto"
  const EigenNamespace := "Eigen::"

  /** The position of the first `auto` token, if there is one. */
  function FirstAuto(tokens: seq<string>): (r: Option<nat>)
    ensures r.None? <==> AutoToken !in tokens
    ensures r.Some? ==> r.value < |tokens| && tokens[r.value] == AutoToken
    ensures r.Some? ==> forall j :: 0 <= j < r.value ==> tokens[j] != AutoToken
  {
    if |tokens| == 0 then None
    else if tokens[0] == AutoToken then Some(0)
    else
      var rest := FirstAuto(tokens[1..]);
      if rest.None? then None else Some(rest.value + 1)
  }

  /** The two tokens before position `i` spell `decltype (`. */
  predicate AfterDecltypeParen(t: seq<string>, i: int) {
    2 <= i < |t| && t[i - 1] == "(" && t[i - 2] == "decltype"
  }

  /** `decltype(auto)` when the two tokens before the `auto` at `i` are `decltype` and `(`. */
  function DeductionAt(tokens: seq<string>, i: nat): (k: AutoKind)
    requires i < |tokens|
    ensures k == DecltypeAuto <==> AfterDecltypeParen(tokens, i)
  {
    if i > 0 && tokens[i - 1] == "(" && i > 1 && tokens[i - 2] == "decltype"
    then DecltypeAuto
    else Auto
  }

  /**
   The kind depends on the two tokens before the `auto` and on nothing else: whatever
   comes before or after them, `a b auto` is `decltype(auto)` exactly when `a b` is
   `decltype (`, and an `auto` among the first two tokens is always plain `auto`.
   */
  lemma DeductionIsLocal(p: seq<string>, a: string, b: string, q: seq<string>)
    ensures DeductionAt(p + [a, b, AutoToken] + q, |p| + 2) == DecltypeAuto
        <==> a == "decltype" && b == "("
    ensures DeductionAt([AutoToken] + q, 0) == Auto
    ensures DeductionAt([a, AutoToken] + q, 1) == Auto
  {
    var t := p + [a, b, AutoToken] + q;
    assert t[|p|] == a && t[|p| + 1] == b;
  }

  /**
   Which canonical spellings count as Eigen types. The checker as written tests the
   spelling itself; `ConstStripped` first drops one leading `const `, so that
   const-qualified types are seen too.
   */
  datatype ScopeRule = AsWritten | ConstStripped {
    predicate Admits(canonical: string) {
      match this
      case AsWritten => StartsWith(canonical, EigenNamespace)
      case ConstStripped =>
        StartsWith(RemovePrefix(canonical, Classifier.ConstPrefix), EigenNamespace)
    }
  }

  /** When a declaration must be reported: all five filters pass. */
  predicate Reported(rule: ScopeRule, n: Node, filename: string) {
    && n.kind == VarDecl
    && n.startFile == Some(filename)
    && AutoToken in n.tokens
    && rule.Admits(n.canonicalSpelling)
    && !Classifier.IsAllowedAutoType(n.canonicalSpelling)
  }

  /** `analyze_var_decl` under a namespace rule. */
  function Analyze(rule: ScopeRule, n: Node, filename: string, lines: seq<string>): (issues: seq<Issue>)
    ensures |issues| <= 1
    ensures issues != [] <==> Reported(rule, n, filename)
    ensures issues != [] ==>
      var i := FirstAuto(n.tokens).value;
      && issues[0].file == filename
      && issues[0].line == n.startLine
      && issues[0].column == n.startColumn
      && issues[0].variable == n.spelling
      && issues[0].canonicalType == n.canonicalSpelling
      && issues[0].typeAsWritten == n.typeSpelling
      && issues[0].source == Snippet.SourceRange(lines, n.startLine, n.endLine)
      && (issues[0].autoKind == DecltypeAuto <==> AfterDecltypeParen(n.tokens, i))
  {
    if n.kind != VarDecl then []
    else if n.startFile.None? then []
    else if n.startFile.value != filename then []
    else if |n.tokens| == 0 then []
    else
      var first := FirstAuto(n.tokens);
      if first.None? then []
      else if !rule.Admits(n.canonicalSpelling) then []
      else if Classifier.IsAllowedAutoType(n.canonicalSpelling) then []
      else
        [Issue(filename, n.startLine, n.startColumn, n.spelling,
               n.canonicalSpelling, n.typeSpelling, DeductionAt(n.tokens, first.value),
               Snippet.SourceRange(lines, n.startLine, n.endLine))]
  }

  /** `analyze_var_decl` as written: only spellings that begin with `Eigen::` are considered. */
  function AnalyzeVarDecl(n: Node, filename: string, lines: seq<string>): (issues: seq<Issue>)
    ensures |issues| <= 1
    ensures n.kind != VarDecl ==> issues == []
    ensures n.startFile != Some(filename) ==> issues == []
    ensures AutoToken !in n.tokens ==> issues == []
    ensures !StartsWith(n.canonicalSpelling, EigenNamespace) ==> issues == []
    ensures Classifier.IsAllowedAutoType(n.canonicalSpelling) ==> issues == []
    ensures Reported(AsWritten, n, filename) ==> |issues| == 1
  {
    Analyze(AsWritten, n, filename, lines)
  }

  /** The same decision with the namespace test applied after dropping one leading `const `. */
  function AnalyzeVarDeclConstAware(n: Node, filename: string, lines: seq<string>): (issues: seq<Issue>)
    ensures |issues| <= 1
    ensures issues != [] <==> Reported(ConstStripped, n, filename)
  {
    Analyze(ConstStripped, n, filename, lines)
  }

  /** The one issue a reported declaration yields. */
  lemma ReportedIssue(rule: ScopeRule, n: Node, filename: string, lines: seq<string>)
    requires Reported(rule, n, filename)
    ensures Analyze(rule, n, filename, lines)
         == [Issue(filename, n.startLine, n.startColumn, n.spelling, n.canonicalSpelling,
                   n.typeSpelling, DeductionAt(n.tokens, FirstAuto(n.tokens).value),
                   Snippet.SourceRange(lines, n.startLine, n.endLine))]
  {
  }

  /** Position `i` holds the first `auto` token of `t`. */
  predicate IsFirstAuto(t: seq<string>, i: int) {
    0 <= i < |t| && t[i] == AutoToken && forall j :: 0 <= j < i ==> t[j] != AutoToken
  }

  /**
   Only the first `auto` token is looked at: an issue says `decltype(auto)` exactly
   when the first `auto` token is preceded by `decltype (`; a later `decltype(auto)`
   in the same declaration does not count.
   */
  lemma DecltypeAutoIff(rule: ScopeRule, n: Node, filename: string, lines: seq<string>)
    requires Reported(rule, n, filename)
    ensures Analyze(rule, n, filename, lines)[0].autoKind == DecltypeAuto
        <==> exists i :: IsFirstAuto(n.tokens, i) && AfterDecltypeParen(n.tokens, i)
  {
    var t := n.tokens;
    var i := FirstAuto(t).value;
    assert IsFirstAuto(t, i);
    ReportedIssue(rule, n, filename, lines);
    if DeductionAt(t, i) != DecltypeAuto {
      forall k | IsFirstAuto(t, k)
        ensures !AfterDecltypeParen(t, k)
      {
        FirstAutoUnique(t, i, k);
      }
    }
  }

  /** There is only one first `auto` token. */
  lemma FirstAutoUnique(t: seq<string>, i: int, k: int)
    requires IsFirstAuto(t, i) && IsFirstAuto(t, k)
    ensures i == k
  {
  }
}
