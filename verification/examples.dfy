/**
 Hand-built nodes for declarations of the repository's `examples.cpp`, with the outcome
 the comment beside each one states. Their token lists and canonical spellings follow the
 file's text and comments; the type as written is set to the canonical spelling.
 */
module Examples {
  import opened Text
  import opened Results
  import opened Syntax
  import Classifier
  import Snippet
  import Analyzer
  import Traversal
  import ConstScope

  const File := "examples.cpp"

  /** The text of lines 11 and 197 after their indentation, trailing comment included. */
  const Line11 := "auto C = A * B;" + "  // Deduces " + "Eigen::Product<...>, " + "not MatrixXd"
  const Line197 := "decltype(auto) C = A * B;" + "  // Deduces " + "Eigen::Product<...>"

  const MatrixXd := Classifier.MatrixPrefix + "double, -1, -1>"
  const ProductType := Analyzer.EigenNamespace + "Product<" + MatrixXd + ", " + MatrixXd + ", 0>"

  /** A line of the fixture: four spaces of indentation, the code, and the line break. */
  function Indented(code: string): string {
    "    " + code + "\n"
  }

  /** The file's line `k` (numbered from 1) reads `code`, indented by four spaces. */
  predicate LineReads(lines: seq<string>, k: int, code: string) {
    1 <= k <= |lines| && lines[k - 1] == Indented(code)
  }

  function Decl(line: nat, name: string, tokens: seq<string>, canonical: string): Node {
    Node(VarDecl, name, Some(File), line, 5, line, tokens, canonical, canonical, [])
  }

  /** `auto C = A * B;` (line 11): deduces `Eigen::Product<...>`. */
  function ProductDecl(): Node {
    Decl(11, "C", ["auto", "C", "=", "A", "*", "B"], ProductType)
  }

  /** `auto C = (A * B).eval();` (line 86): deduces a plain `Eigen::Matrix`. */
  function EvalDecl(): Node {
    Decl(86, "C", ["auto", "C", "=", "(", "A", "*", "B", ")", ".", "eval", "(", ")"], MatrixXd)
  }

  /** `decltype(auto) C = A * B;` (line 197): deduces `Eigen::Product<...>`. */
  function DecltypeDecl(): Node {
    Decl(197, "C", ["decltype", "(", "auto", ")", "C", "=", "A", "*", "B"], ProductType)
  }

  /** `auto c = a * b;` (line 292): deduces `double`. */
  function DoubleDecl(): Node {
    Decl(292, "c", ["auto", "c", "=", "a", "*", "b"], "double")
  }

  /** `const auto C = A * B;` (line 23): deduces `const Eigen::Product<...>`. */
  function ConstProductDecl(): Node {
    Decl(23, "C", ["const", "auto", "C", "=", "A", "*", "B"], Classifier.ConstPrefix + ProductType)
  }

  lemma ProductTypeNotAllowed()
    ensures StartsWith(ProductType, Analyzer.EigenNamespace)
    ensures !Classifier.IsAllowedAutoType(ProductType)
  {
    StartsWithAppend(Analyzer.EigenNamespace, ProductType[|Analyzer.EigenNamespace|..]);
    assert ProductType[0] == 'E' && ProductType[7] == 'P';
    Classifier.AllowedIff(ProductType);
  }

  lemma MatrixXdAllowed()
    ensures StartsWith(MatrixXd, Analyzer.EigenNamespace)
    ensures Classifier.IsAllowedAutoType(MatrixXd)
  {
    StartsWithAppend(Classifier.MatrixPrefix, "double, -1, -1>");
    assert MatrixXd[..7] == Analyzer.EigenNamespace;
    assert MatrixXd[0] == 'E';
    Classifier.AllowedIff(MatrixXd);
  }

  /** An indented line is shown without its indentation and line break. */
  lemma StripIndented(text: string)
    requires text != [] && text[0] !in Whitespace && text[|text| - 1] !in Whitespace
    ensures Strip(Indented(text)) == text
  {
    var indented := "    " + text;
    assert Indented(text) == indented + "\n";
    RStripIgnoresSuffix(indented, "\n", Whitespace);
    assert RStrip(indented, Whitespace) == indented;
    assert AllIn("    ", Whitespace);
    LStripIgnoresPrefix("    ", text, Whitespace);
    assert LStrip(text, Whitespace) == text;
  }

  lemma StripLine(lines: seq<string>, k: nat, text: string)
    requires LineReads(lines, k, text)
    requires text != [] && text[0] !in Whitespace && text[|text| - 1] !in Whitespace
    ensures Snippet.SourceRange(lines, k, k) == text
  {
    Snippet.SingleLine(lines, k);
    StripIndented(text);
  }

  /** A reported declaration's issue, once its deduction kind and snippet are known. */
  lemma IssueIs(n: Node, lines: seq<string>, kind: AutoKind, text: string)
    requires Analyzer.Reported(Analyzer.AsWritten, n, File)
    requires Analyzer.DeductionAt(n.tokens, Analyzer.FirstAuto(n.tokens).value) == kind
    requires Snippet.SourceRange(lines, n.startLine, n.endLine) == text
    ensures Analyzer.AnalyzeVarDecl(n, File, lines)
         == [Issue(File, n.startLine, n.startColumn, n.spelling, n.canonicalSpelling,
                   n.typeSpelling, kind, text)]
  {
    Analyzer.ReportedIssue(Analyzer.AsWritten, n, File, lines);
  }

  lemma ProductIsCandidate()
    ensures Analyzer.Reported(Analyzer.AsWritten, ProductDecl(), File)
    ensures Analyzer.FirstAuto(ProductDecl().tokens) == Some(0)
  {
    ProductTypeNotAllowed();
    assert ProductDecl().tokens[0] == Analyzer.AutoToken;
  }

  /** Line 11 is reported as an `auto` declaration of the product expression. */
  lemma ProductReported(lines: seq<string>)
    requires LineReads(lines, 11, Line11)
    ensures Analyzer.AnalyzeVarDecl(ProductDecl(), File, lines)
         == [Issue(File, 11, 5, "C", ProductType, ProductType, Auto, Line11)]
  {
    ProductIsCandidate();
    ProductSnippet(lines);
    IssueIs(ProductDecl(), lines, Auto, Line11);
  }

  lemma ProductSnippet(lines: seq<string>)
    requires LineReads(lines, 11, Line11)
    ensures Snippet.SourceRange(lines, ProductDecl().startLine, ProductDecl().endLine)
         == Line11
  {
    assert |Line11| == 61 && Line11[0] == 'a' && Line11[60] == 'd';
    StripLine(lines, 11, Line11);
  }

  /** Line 86 is not reported: `.eval()` yields a plain matrix. */
  lemma EvalAllowed(lines: seq<string>)
    ensures Analyzer.AnalyzeVarDecl(EvalDecl(), File, lines) == []
  {
    MatrixXdAllowed();
  }

  /** Line 197 is reported as a `decltype(auto)` declaration. */
  lemma DecltypeReported(lines: seq<string>)
    requires LineReads(lines, 197, Line197)
    ensures Analyzer.AnalyzeVarDecl(DecltypeDecl(), File, lines)
         == [Issue(File, 197, 5, "C", ProductType, ProductType, DecltypeAuto, Line197)]
  {
    DecltypeIsCandidate();
    DecltypeFirstAuto();
    DecltypeSnippet(lines);
    IssueIs(DecltypeDecl(), lines, DecltypeAuto, Line197);
  }

  lemma DecltypeSnippet(lines: seq<string>)
    requires LineReads(lines, 197, Line197)
    ensures Snippet.SourceRange(lines, DecltypeDecl().startLine, DecltypeDecl().endLine)
         == Line197
  {
    assert |Line197| == 57 && Line197[0] == 'd' && Line197[56] == '>';
    StripLine(lines, 197, Line197);
  }

  lemma DecltypeIsCandidate()
    ensures Analyzer.Reported(Analyzer.AsWritten, DecltypeDecl(), File)
  {
    ProductTypeNotAllowed();
    assert DecltypeDecl().tokens[2] == Analyzer.AutoToken;
  }

  lemma DecltypeFirstAuto()
    ensures Analyzer.FirstAuto(DecltypeDecl().tokens) == Some(2)
    ensures Analyzer.DeductionAt(DecltypeDecl().tokens, 2) == DecltypeAuto
  {
    var t := DecltypeDecl().tokens;
    assert t[2..][0] == Analyzer.AutoToken;
    assert t[1..][1..] == t[2..];
    assert Analyzer.FirstAuto(t[2..]) == Some(0);
    assert t[1..][0] != Analyzer.AutoToken;
    assert Analyzer.FirstAuto(t[1..]) == Some(1);
  }

  /** Line 292 is not reported: `double` is outside the Eigen namespace. */
  lemma DoubleNotReported(lines: seq<string>)
    ensures Analyzer.AnalyzeVarDecl(DoubleDecl(), File, lines) == []
  {
    assert "double"[0] != 'E';
  }

  /** Line 23 is the input that shows the const-qualified gap: as written it is not reported. */
  lemma ConstProductMissed(lines: seq<string>)
    ensures Analyzer.AnalyzeVarDecl(ConstProductDecl(), File, lines) == []
  {
    StartsWithAppend(Classifier.ConstPrefix, ProductType);
    ConstScope.ConstQualifiedNeverReported(ConstProductDecl(), File, lines);
  }

  /** Under the const-aware rule line 23 is reported like line 11. */
  lemma ConstProductReportedWhenConstAware(lines: seq<string>)
    ensures Analyzer.AnalyzeVarDeclConstAware(ConstProductDecl(), File, lines) != []
  {
    ProductTypeNotAllowed();
    assert !StartsWith(ProductType, Classifier.ConstPrefix) by {
      assert ProductType[0] == 'E';
    }
    ConstScope.ConstAwareSeesThroughConst(ConstProductDecl(), File, lines, ProductType);
    var u := ConstProductDecl().(canonicalSpelling := ProductType);
    assert u.tokens[1] == Analyzer.AutoToken;
    assert Analyzer.Reported(Analyzer.AsWritten, u, File);
  }

  /** A declaration from an Eigen header, deducing the same product type. */
  function HeaderDecl(): Node {
    Node(VarDecl, "tmp", Some("Eigen/src/Core/Product.h"), 90, 5, 90,
         ["auto", "tmp", "=", "lhs", "*", "rhs"], ProductType, ProductType, [])
  }

  lemma HeaderNotReported(lines: seq<string>)
    ensures Analyzer.AnalyzeVarDecl(HeaderDecl(), File, lines) == []
  {
    assert "Eigen/src/Core/Product.h"[0] != File[0];
  }

  /** A function definition whose body declares `decl`. */
  function Function(name: string, decl: Node): Node {
    var stmt := Node(DeclStmt, "", Some(File), decl.startLine, decl.startColumn, decl.endLine,
                     decl.tokens + [";"], "", "", [decl]);
    var body := Node(CompoundStmt, "", Some(File), decl.startLine, 1, decl.endLine, [], "", "", [stmt]);
    Node(FunctionDecl, name, Some(File), decl.startLine, 1, decl.endLine, [], "void ()", "void ()", [body])
  }

  /** A scope-free wrapper node reports exactly what its only child's subtree reports. */
  lemma WrapperTransparent(w: Node, lines: seq<string>)
    requires w.kind != VarDecl && |w.children| == 1
    ensures Traversal.CheckFile(w, File, lines) == Traversal.CheckFile(w.children[0], File, lines)
  {
    var f := Traversal.Analyser(Analyzer.AsWritten, File, lines);
    assert f(w) == [];
    assert w.children[1..] == [];
    assert Traversal.VisitAll(w.children[1..], f) == [];
    assert Traversal.VisitAll(w.children, f) == Traversal.Visit(w.children[0], f);
  }

  lemma FunctionReports(name: string, decl: Node, lines: seq<string>)
    requires decl.children == []
    ensures Traversal.CheckFile(Function(name, decl), File, lines)
         == Analyzer.AnalyzeVarDecl(decl, File, lines)
  {
    var fn := Function(name, decl);
    WrapperTransparent(fn, lines);
    WrapperTransparent(fn.children[0], lines);
    WrapperTransparent(fn.children[0].children[0], lines);
    var f := Traversal.Analyser(Analyzer.AsWritten, File, lines);
    assert Traversal.VisitAll(decl.children, f) == [];
  }

  /** The translation unit: a header declaration first, then four example functions. */
  function Unit(): Node {
    Node(TranslationUnit, File, None, 0, 0, 0, [], "", "",
         [HeaderDecl(),
          Function("example1_repeated_evaluation", ProductDecl()),
          Function("example4_correct_with_eval", EvalDecl()),
          Function("example9_decltype_auto", DecltypeDecl()),
          Function("example12_auto_with_double", DoubleDecl())])
  }

  const Issue11 := Issue(File, 11, 5, "C", ProductType, ProductType, Auto, Line11)
  const Issue197 := Issue(File, 197, 5, "C", ProductType, ProductType, DecltypeAuto, Line197)

  /** `example1_repeated_evaluation` contributes the issue for line 11. */
  lemma Example1Reports(lines: seq<string>)
    requires LineReads(lines, 11, Line11)
    ensures Traversal.CheckFile(Unit().children[1], File, lines) == [Issue11]
  {
    var d := ProductDecl();
    var fn := Function("example1_repeated_evaluation", d);
    assert Unit().children[1] == fn;
    FunctionReports("example1_repeated_evaluation", d, lines);
    ProductReported(lines);
  }

  /** `example9_decltype_auto` contributes the issue for line 197. */
  lemma Example9Reports(lines: seq<string>)
    requires LineReads(lines, 197, Line197)
    ensures Traversal.CheckFile(Unit().children[3], File, lines) == [Issue197]
  {
    var d := DecltypeDecl();
    var fn := Function("example9_decltype_auto", d);
    assert Unit().children[3] == fn;
    FunctionReports("example9_decltype_auto", d, lines);
    DecltypeReported(lines);
  }

  /** The header declaration and the two functions whose declarations pass. */
  lemma UnitQuietChildren(lines: seq<string>)
    ensures Traversal.CheckFile(Unit().children[0], File, lines) == []
    ensures Traversal.CheckFile(Unit().children[2], File, lines) == []
    ensures Traversal.CheckFile(Unit().children[4], File, lines) == []
  {
    HeaderNotReported(lines);
    assert HeaderDecl().children == [];
    EvalAllowed(lines);
    FunctionReports("example4_correct_with_eval", EvalDecl(), lines);
    DoubleNotReported(lines);
    FunctionReports("example12_auto_with_double", DoubleDecl(), lines);
  }

  /**
   Over the whole unit the run reports line 11 and then line 197, in source order;
   the header declaration, the evaluated matrix and the double are passed over.
   */
  lemma UnitReports(lines: seq<string>)
    requires LineReads(lines, 11, Line11)
    requires LineReads(lines, 197, Line197)
    ensures Traversal.CheckFile(Unit(), File, lines) == [Issue11, Issue197]
  {
    var f := Traversal.Analyser(Analyzer.AsWritten, File, lines);
    var cs := Unit().children;
    Example1Reports(lines);
    Example9Reports(lines);
    UnitQuietChildren(lines);
    assert cs[4..][1..] == [];
    assert Traversal.VisitAll(cs[4..], f) == [];
    assert cs[3..][1..] == cs[4..];
    assert Traversal.VisitAll(cs[3..], f) == [Issue197];
    assert cs[2..][1..] == cs[3..];
    assert Traversal.VisitAll(cs[2..], f) == [Issue197];
    assert cs[1..][1..] == cs[2..];
    assert Traversal.VisitAll(cs[1..], f) == [Issue11, Issue197];
    assert Traversal.VisitAll(cs, f) == [Issue11, Issue197];
    assert f(Unit()) == [];
  }
}
