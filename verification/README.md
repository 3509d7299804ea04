# Eigen `auto` checker: a verified model of its detection engine

`python_env/eigen_auto_check.py` looks for C++ variable declarations written with `auto`
or `decltype(auto)`. Such a declaration is a problem when its deduced type is an Eigen
expression template (`Eigen::Product<...>`, `Eigen::CwiseBinaryOp<...>`, ...) rather than
plain storage (`Eigen::Matrix<...>`, `Eigen::Array<...>`). The script parses the file with
libclang and walks the syntax tree in pre-order. For each declaration it flags, and only
for those, it builds one issue record: file, line, column, variable, canonical type, type
as written, deduction kind, and a one-line source snippet.

This project models the pure logic of that engine in Dafny and proves properties of it:

- `classifier.dfy`: the allowlist test (`is_allowed_auto_type`).
- `snippet.dfy`: the snippet extraction (`get_source_range`).
- `analyzer.dfy`: the per-node decision (`analyze_var_decl`).
- `traversal.dfy`: the tree walk inside `check_file` (`visit_node`), written once over any
  per-node analysis. Beside it sits a work-list version that is proved to produce the same
  output.
- `compile_args.dfy`: the compiler-flag filter of `get_compile_args`.
- `const_scope.dfy`: the const-qualified gap described under "Findings", with the corrected
  rule.
- `examples.dfy`: hand-built nodes for declarations of `examples.cpp`, with the outcome
  each one is documented to have. Their canonical spellings follow the file's comments,
  and the type as written is set to the canonical spelling.
- `text.dfy`, `results.dfy`, `syntax.dfy`, `sequences.dfy`: the Python string operations
  the script relies on (`removeprefix`, `rstrip(chars)`, `strip()`, `" ".join`), the
  `Option`/`Result` types, the syntax-tree datatype and a few sequence facts.

libclang is not modelled; it is replaced by its output. A `Syntax.Node` holds:

- the cursor kind;
- the file, line and column where the extent starts, and the line where it ends;
- the token spellings;
- the type spelling and the canonical type spelling;
- the children.

A source file is the list of its lines, as `readlines()` returns them.

Notes on what the code does, which the model follows:

- `auto` is recognised from the declaration's tokens, not from the type as written. Only
  the first `auto` token is examined. It counts as `decltype(auto)` exactly when the two
  tokens before it are `decltype` and `(`.
- `get_compile_args` raises an error when the database has no command for the file. This
  file has no fallback to a default flag set.
- The arguments of all matching commands are concatenated before filtering. Only the very
  first element, the first command's compiler, is skipped.
- A flag that takes an argument (`-o`, `-c`, `-arch`) removes the next argument whatever
  that is, including the source file name that follows `-c` in a real command line. This
  holds when the argument before the flag is not itself `-o`, `-c` or `-arch`. Otherwise
  the flag is consumed as that flag's argument and removes nothing: `-o -c x` keeps `x`.
- The namespace test is applied to the raw canonical spelling (see "Findings").

## Model

| member | source | states |
|---|---|---|
| Classifier.AllowedIff | python_env/eigen_auto_check.py:36-59 | A canonical spelling is allowed exactly when, after one leading `const ` is removed, it begins with `Eigen::Matrix<` or `Eigen::Array<`; everything else is refused (fail-closed) |
| Classifier.OutsideNamespaceNotAllowed | python_env/eigen_auto_check.py:47-59 | A spelling that is not under `Eigen::` after removing `const ` is never allowed |
| Classifier.SigilSuffixIrrelevant | python_env/eigen_auto_check.py:39-40 | Appending any run of `&`, `*` and spaces never changes the allowlist decision |
| Classifier.Normalize | python_env/eigen_auto_check.py:36-40 | The normalised spelling never ends in `&`, `*` or a space |
| Text.RemovePrefix | python_env/eigen_auto_check.py:37 | `removeprefix`: the prefix plus the result rebuilds the input when it starts with the prefix, otherwise the input is unchanged |
| Text.RStrip | python_env/eigen_auto_check.py:40 | `rstrip(chars)`: the result is a prefix of the input, everything removed is in the set, and the result does not end in the set |
| Text.StartsWithAfterRStrip | python_env/eigen_auto_check.py:40-52 | A prefix test whose prefix ends outside the stripped set gives the same answer before and after `rstrip` |
| Text.Strip | python_env/eigen_auto_check.py:78 | `strip()`: the result is a slice of the input, only whitespace is removed on each side, and neither end of the result is whitespace |
| Text.JoinTrimmed | python_env/eigen_auto_check.py:78 | Joining non-empty trimmed parts with single spaces gives a trimmed string, and a non-empty one when there is at least one part |
| Text.JoinSnoc | python_env/eigen_auto_check.py:78 | Joining one more part appends one space and the part, or only the part when nothing came before |
| Text.RStripIgnoresSuffix | python_env/eigen_auto_check.py:40 | `rstrip(chars)` is unaffected by any tail made only of characters from the set |
| Text.StripAfterRStrip | python_env/eigen_auto_check.py:76-78 | Calling `rstrip()` before `strip()` changes nothing |
| Snippet.SourceRange | python_env/eigen_auto_check.py:62-79 | A start or end line outside `1..len(lines)` gives `"?"`; every result has no leading or trailing whitespace |
| Snippet.ReversedRangeIsEmpty | python_env/eigen_auto_check.py:74-78 | A start line after the end line, both in the file, gives the empty string |
| Snippet.SingleLine | python_env/eigen_auto_check.py:74-78 | A one-line range shows that line stripped of surrounding whitespace |
| Snippet.ExtendByOneLine | python_env/eigen_auto_check.py:76-78 | Extending the range by one line appends one space and that line's stripped text; a blank line changes nothing, and nothing is added before the first non-blank line |
| Snippet.DisplayParts | python_env/eigen_auto_check.py:76-78 | The displayed parts are non-empty and trimmed, and there are no more of them than lines |
| Analyzer.FirstAuto | python_env/eigen_auto_check.py:104-118 | Finds the first `auto` token: none exactly when no token is `auto`, otherwise an `auto` position with no `auto` before it |
| Analyzer.DeductionIsLocal | python_env/eigen_auto_check.py:111-114 | The deduction kind depends only on the two tokens before the `auto`: whatever surrounds them, `a b auto` is `decltype(auto)` exactly when `a b` is `decltype (`, and an `auto` among the first two tokens is plain `auto` |
| Analyzer.Analyze | python_env/eigen_auto_check.py:82-163 | At most one issue. There is one exactly when the node is a variable declaration starting in the analysed file, has an `auto` token, its canonical type passes the namespace rule and is not allowed. The issue carries the file, start line and column, spelling, canonical type, type as written, the source snippet, and the deduction kind of the first `auto` |
| Analyzer.AnalyzeVarDecl | python_env/eigen_auto_check.py:82-163 | No issue for: a non-declaration, a node from another file or with no file, no `auto` token, a canonical type not starting with `Eigen::`, or an allowed type; exactly one otherwise |
| Analyzer.ReportedIssue | python_env/eigen_auto_check.py:140-161 | A reported declaration yields exactly the one issue record built from its own fields |
| Analyzer.DecltypeAutoIff | python_env/eigen_auto_check.py:107-115 | The issue says `decltype(auto)` exactly when the first `auto` token is preceded by `decltype (`; a later `decltype(auto)` is ignored |
| Analyzer.FirstAutoUnique | python_env/eigen_auto_check.py:108-115 | The loop's `break` makes the first `auto` position unique |
| Traversal.VisitIsPreOrder | python_env/eigen_auto_check.py:290-298 | The recursive walk equals applying the analysis to each node of the pre-order list and concatenating |
| Traversal.PreOrder | python_env/eigen_auto_check.py:290-296 | The pre-order list starts with the node itself |
| Traversal.VisitAllAppend | python_env/eigen_auto_check.py:295-296 | Walking a list of siblings splits at any point, earlier siblings first |
| Traversal.ChildBlock | python_env/eigen_auto_check.py:290-296 | The `k`-th child's findings form one block, after the node's own findings and the earlier siblings' and before the later siblings' |
| Traversal.FlatMapSelects | python_env/eigen_auto_check.py:292 | When every node yields at most one result, and yields one exactly when it is selected, the output has one entry per selected node, in order |
| Traversal.ReportedNodes | python_env/eigen_auto_check.py:290-298 | The reported nodes are exactly the nodes of the list that the rule reports |
| Traversal.IssuesMatchReportedNodes | python_env/eigen_auto_check.py:290-298 | Analysing a node list gives one issue per reported node, in order, each being that node's own issue |
| Traversal.CheckFileReportsInPreOrder | python_env/eigen_auto_check.py:289-300 | `check_file` returns one issue per reported node of the tree, in pre-order, carrying that node's line, column and name |
| Traversal.VisitIterative | python_env/eigen_auto_check.py:290-298 | A work-list walk with no recursion produces the same findings, in the same order, as the recursive walk |
| Traversal.CheckFileIterative | python_env/eigen_auto_check.py:289-300 | `check_file` by the work-list walk returns the same issues as the recursive walk |
| CompileArgs.Filter | python_env/eigen_auto_check.py:215-235 | The filtered list is never longer than its input |
| CompileArgs.FilterDropsFlags | python_env/eigen_auto_check.py:222-234 | No `-o`, `-c`, `-arch`, `-o...` or `--driver-mode...` argument survives the filter |
| CompileArgs.FilterIsSubsequence | python_env/eigen_auto_check.py:215-235 | The kept arguments appear in the input in their original order |
| CompileArgs.FilterAppend | python_env/eigen_auto_check.py:218-235 | Filtering a concatenation is the concatenation of the filtered parts when the first part does not end in a flag that takes an argument |
| CompileArgs.FilterSplits | python_env/eigen_auto_check.py:218-235 | The same split, at any position not right after such a flag |
| CompileArgs.ArgumentKept | python_env/eigen_auto_check.py:218-235 | An argument that is not a removed flag, and does not directly follow a flag taking an argument, is kept in its place |
| CompileArgs.FlagAndArgumentDropped | python_env/eigen_auto_check.py:219-234 | `-o`, `-c` or `-arch` removes itself and the next argument, whatever that argument is, when the argument before it is not itself `-o`, `-c` or `-arch` (otherwise the flag is consumed as that flag's argument and removes nothing) |
| CompileArgs.FlagConsumedAsArgument | python_env/eigen_auto_check.py:219-234 | A flag taking an argument that directly follows another such flag is consumed as its argument and removes nothing after it, so `-o -c x` keeps `x` |
| CompileArgs.PendingStep | python_env/eigen_auto_check.py:219-235 | One loop step: a pending skip consumes one argument, a flag taking an argument sets the skip, other flags vanish, anything else is kept |
| CompileArgs.FilterCompileArgs | python_env/eigen_auto_check.py:215-235 | The loop over `cmd_args[1:]` with `skip_next` computes the reference filter of everything after the first element, and nothing for an empty list |
| CompileArgs.GetCompileArgs | python_env/eigen_auto_check.py:200-240 | An error exactly when there is no command. Otherwise the result keeps input order, contains no removed flag, and is the filter of the concatenated arguments after the first element |
| Classifier.IsAllowedAutoType | python_env/eigen_auto_check.py:25-59 | `is_allowed_auto_type` itself, with no contract of its own; `Classifier.AllowedIff` states which spellings it allows |
| Traversal.Visit | python_env/eigen_auto_check.py:290-296 | `visit_node`, with no contract of its own; `Traversal.VisitIsPreOrder` proves it is the analysis of each node of the pre-order list, concatenated |
| Traversal.VisitAll | python_env/eigen_auto_check.py:295-296 | The loop over the children, with no contract of its own; `Traversal.VisitAllAppend` and `Traversal.ChildBlock` state how the children's findings follow each other |
| Traversal.CheckFile | python_env/eigen_auto_check.py:289-300 | The walk of `check_file` from the root with the code's rule, with no contract of its own; `Traversal.CheckFileReportsInPreOrder` states its result |
| Traversal.CheckFileConstAware | python_env/eigen_auto_check.py:289-300 | The same walk with the corrected rule, with no contract of its own; `ConstScope.CheckFileConstAwareExtends` relates it to `Traversal.CheckFile` |
| Analyzer.AnalyzeVarDeclConstAware | python_env/eigen_auto_check.py:82-163 | The corrected rule: at most one issue, and one exactly when all five filters pass with the namespace test applied after removing one leading `const ` |
| Text.Join | python_env/eigen_auto_check.py:78 | `" ".join`, with no contract of its own; `Text.JoinSnoc` and `Text.JoinTrimmed` state what it builds |
| Text.LStrip | python_env/eigen_auto_check.py:78 | The leading half of `strip()`: the result is a suffix of the input, everything removed is in the set, and the result does not start with a character of the set |
| Snippet.LinePart | python_env/eigen_auto_check.py:76-78 | The `if line.strip()` filter: a line contributes at most one part, and that part is non-empty and has no surrounding whitespace |
| CompileArgs.Concat | python_env/eigen_auto_check.py:211-213 | The collected `cmd_args` start with the first command's arguments, so `cmd_args[1:]` skips only that command's compiler |
| CompileArgs.ConcatSnoc | python_env/eigen_auto_check.py:211-213 | Each pass of the `extend` loop appends exactly that command's arguments after those collected so far |
| ConstScope.ConstQualifiedNeverReported | python_env/eigen_auto_check.py:133-135 | As written, a declaration whose canonical type begins with `const ` is never reported |
| ConstScope.ConstRemovalNeverApplies | python_env/eigen_auto_check.py:133-138 | As written, every spelling that reaches the allowlist has no `const ` for its `removeprefix` (line 37) to remove |
| ConstScope.ConstAwareAgreesOtherwise | python_env/eigen_auto_check.py:133-138 | With no leading `const `, the corrected rule decides exactly as the code does |
| ConstScope.ConstAwareSeesThroughConst | python_env/eigen_auto_check.py:133-140 | Under the corrected rule, `const T` is reported exactly when `T` is reported by the code as written |
| ConstScope.ConstStorageStillAllowed | python_env/eigen_auto_check.py:36-55 | Under the corrected rule, `const Eigen::Matrix<...>` and `const Eigen::Array<...>` are still not reported |
| ConstScope.CheckFileConstAwareExtends | python_env/eigen_auto_check.py:289-300 | On a tree with no const-qualified canonical type, the corrected run reports exactly what the code reports |
| Examples.ProductReported | examples.cpp:11 | Given the file's real line 11, `auto C = A * B;` is reported as `auto` with type `Eigen::Product<...>`, column 5, and as snippet the whole line without its indentation, trailing comment `// Deduces Eigen::Product<...>, not MatrixXd` included |
| Examples.EvalAllowed | examples.cpp:86 | `auto C = (A * B).eval();` deduces `Eigen::Matrix<double, -1, -1>` and is not reported |
| Examples.DecltypeReported | examples.cpp:197 | Given the file's real line 197, `decltype(auto) C = A * B;` is reported with deduction kind `decltype(auto)`, and as snippet the whole line without its indentation, trailing comment included |
| Examples.DecltypeFirstAuto | examples.cpp:197 | In `decltype ( auto ) C = ...` the first `auto` is the third token and is preceded by `decltype (` |
| Examples.DoubleNotReported | examples.cpp:292 | `auto c = a * b;` deduces `double`, is outside Eigen, and is not reported |
| Examples.HeaderNotReported | python_env/eigen_auto_check.py:95-97 | A declaration located in an included Eigen header (brought in by examples.cpp line 1), not in the analysed file, is not reported |
| Examples.ConstProductMissed | examples.cpp:18-23 | As written, `const auto C = A * B;` (canonical `const Eigen::Product<...>`) is not reported |
| Examples.ConstProductReportedWhenConstAware | examples.cpp:18-23 | Under the corrected rule the same declaration is reported |
| Examples.UnitReports | python_env/eigen_auto_check.py:289-300 | Over a unit of a header declaration and the example functions of examples.cpp lines 6-16, 81-89, 192-200 and 287-295, the run reports line 11 and then line 197, in source order, each with its real line text as snippet |

## Left out

- libclang itself (`Index.create`, `parse`, cursors, tokens, extents, types) is replaced by
  the `Syntax.Node` tree it would produce. A node's `extent` is always present; `startFile`
  stands in for `extent.start.file`.
- `load_compilation_database` and the database lookup (`getCompileCommands`) are not
  modelled. `GetCompileArgs` receives the matching commands' argument lists as a parameter.
- Reading the source file (`open`, `readlines`) is not modelled; the lines are a parameter.
- The diagnostics loop of `check_file` only sets a flag that is printed in verbose mode, so
  it is left out.
- The `VERBOSE` debug printing is left out everywhere. It does not influence any result.
- `main` is left out: argument parsing, path resolution, the exit codes and the printed
  report.
- `python_env/test_type_info.py` and `python_env/test_libclang.py` are exploratory scripts
  that print libclang output. They state no property of the checker.
- `get_compile_args` calls `getCompileCommands` twice (once for the emptiness test and once
  to collect arguments). The model assumes both calls return the same commands.
- Line and column numbers are natural numbers, as libclang reports them; line 0 is outside
  every file, so `get_source_range` gives `"?"` for it.
- Text.Strip: whitespace is the set of characters Python's `str.isspace()` accepts. No
  other Unicode processing is modelled.
- Traversal.Visit: CPython stops `visit_node` with `RecursionError` once the tree is deeper
  than the interpreter's recursion limit (1000 frames by default), for instance on an
  initialiser that chains a few hundred `+` terms. The model has no depth limit: `Visit`
  and the work-list walk `VisitIterative` return findings for trees of any depth, so
  neither models that failure.
- Examples.ProductReported: the example nodes are built by hand, not produced by a parse.
  Their type as written is set to the canonical spelling, although libclang's
  `cursor.type.spelling` for an `auto` variable may differ from it. The expected issues of
  this lemma, `Examples.DecltypeReported` and `Examples.UnitReports` carry that hand-set
  value in their type-as-written field.
- Examples.UnitReports: the translation unit is a small hand-built tree with one
  declaration from each of four example functions plus one header declaration, not the
  full parse of `examples.cpp`.

## Findings

| source | as written | input that shows it | evidently intended | confidence | as-written member | corrected member |
|---|---|---|---|---|---|---|
| python_env/eigen_auto_check.py:133-135 | The `Eigen::` namespace test is applied to the raw canonical spelling, so a const-qualified expression template (canonical spelling `const Eigen::Product<...>`) never passes it. The `removeprefix("const ")` in `is_allowed_auto_type` (line 37) can never take effect on this path | `const auto C = A * B;` (examples.cpp:23, documented as deducing `const Eigen::Product<...>`) yields no issue | Apply the namespace test after removing one leading `const `, as the allowlist does: the declaration is reported, and `const Eigen::Matrix<...>` stays allowed | medium, not executed | Examples.ConstProductMissed | Examples.ConstProductReportedWhenConstAware |

The as-written behaviour is `Analyzer.AnalyzeVarDecl`, and `ConstScope.ConstQualifiedNeverReported`
proves the gap for every input. The corrected rule is `Analyzer.AnalyzeVarDeclConstAware`
(`ScopeRule.ConstStripped`). `ConstScope.ConstAwareSeesThroughConst` proves that it reports
`const T` exactly when the code reports `T`, and `ConstScope.ConstAwareAgreesOtherwise` proves
that it changes nothing else. The main model keeps the code's behaviour, because that is what
the script does; the corrected walk is `Traversal.CheckFileConstAware`.
