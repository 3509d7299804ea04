/**
 `get_compile_args`: the compiler arguments handed to the parser. The arguments of
 every compile command for the file are concatenated; the first element (the
 compiler) is dropped, then output, compile-only and architecture flags together
 with the argument after them, and `-o...` and `--driver-mode...` flags on their own.
 */
module CompileArgs {
  import opened Text
  import opened Results
  import Sequences

  /** `-o`, `-c` and `-arch`: dropped together with the argument that follows. */
  predicate TakesArgument(a: string) {
    a == "-o" || a == "-c" || a == "-arch"
  }

  /** Flags dropped on their own: anything beginning `-o` or `--driver-mode`. */
  predicate DroppedAlone(a: string) {
    StartsWith(a, "-o") || StartsWith(a, "--driver-mode")
  }

  predicate Removed(a: string) {
    TakesArgument(a) || DroppedAlone(a)
  }

  /** The filtered form of an argument list (after the compiler name), defined left to right. */
  function Filter(xs: seq<string>): (r: seq<string>)
    ensures |r| <= |xs|
  {
    if |xs| == 0 then []
    else if TakesArgument(xs[0]) then (if |xs| == 1 then [] else Filter(xs[2..]))
    else if DroppedAlone(xs[0]) then Filter(xs[1..])
    else [xs[0]] + Filter(xs[1..])
  }

  /** No output-path, compile-only, architecture or driver-mode flag survives. */
  lemma {:induction false} FilterDropsFlags(xs: seq<string>)
    ensures forall k :: 0 <= k < |Filter(xs)| ==> !Removed(Filter(xs)[k])
    decreases |xs|
  {
    if |xs| == 0 {
    } else if TakesArgument(xs[0]) {
      if |xs| > 1 {
        FilterDropsFlags(xs[2..]);
      }
    } else if DroppedAlone(xs[0]) {
      FilterDropsFlags(xs[1..]);
    } else {
      FilterDropsFlags(xs[1..]);
    }
  }

  /** `a` can be obtained from `b` by deleting elements. */
  predicate Subsequence(a: seq<string>, b: seq<string>)
    decreases |b|
  {
    if |a| == 0 then true
    else if |b| == 0 then false
    else if a[0] == b[0] then Subsequence(a[1..], b[1..])
    else Subsequence(a, b[1..])
  }

  lemma {:induction false} SubsequenceOfTail(a: seq<string>, b: seq<string>)
    requires |b| > 0 && Subsequence(a, b[1..])
    ensures Subsequence(a, b)
    decreases |b|, 0
  {
    if |a| > 0 && a[0] == b[0] {
      SubsequenceDropFirst(a, b[1..]);
    }
  }

  lemma {:induction false} SubsequenceDropFirst(a: seq<string>, b: seq<string>)
    requires |a| > 0 && Subsequence(a, b)
    ensures Subsequence(a[1..], b)
    decreases |b|, 1
  {
    if a[0] == b[0] {
      if |a| > 1 && |b| > 1 {
        SubsequenceOfTail(a[1..], b);
      }
    } else {
      SubsequenceDropFirst(a, b[1..]);
      SubsequenceOfTail(a[1..], b);
    }
  }

  /** The kept arguments appear in the input, in their original order. */
  lemma {:induction false} FilterIsSubsequence(xs: seq<string>)
    ensures Subsequence(Filter(xs), xs)
    decreases |xs|
  {
    if |xs| == 0 {
    } else if TakesArgument(xs[0]) {
      if |xs| > 1 {
        FilterIsSubsequence(xs[2..]);
        assert xs[1..][1..] == xs[2..];
        SubsequenceOfTail(Filter(xs[2..]), xs[1..]);
        SubsequenceOfTail(Filter(xs[2..]), xs);
      }
    } else if DroppedAlone(xs[0]) {
      FilterIsSubsequence(xs[1..]);
      SubsequenceOfTail(Filter(xs[1..]), xs);
    } else {
      FilterIsSubsequence(xs[1..]);
      assert ([xs[0]] + Filter(xs[1..]))[1..] == Filter(xs[1..]);
    }
  }

  /** Between `xs[..i]` and `xs[i..]` no flag is waiting for its argument. */
  predicate CleanBoundary(xs: seq<string>, i: nat)
    requires i <= |xs|
  {
    i == 0 || !TakesArgument(xs[i - 1])
  }

  /** How many arguments the first one consumes: two for a flag taking an argument. */
  function Width(a: string): nat {
    if TakesArgument(a) then 2 else 1
  }

  /** What the first argument contributes to the output. */
  function Kept(a: string): seq<string> {
    if Removed(a) then [] else [a]
  }

  /** One left-to-right step of the filter. */
  lemma FilterHead(ys: seq<string>)
    requires |ys| > 0 && Width(ys[0]) <= |ys|
    ensures Filter(ys) == Kept(ys[0]) + Filter(ys[Width(ys[0])..])
  {
  }

  /** Filtering distributes over a concatenation whose first part does not end in a flag awaiting its argument. */
  lemma {:induction false} FilterAppend(a: seq<string>, b: seq<string>)
    requires a == [] || !TakesArgument(a[|a| - 1])
    ensures Filter(a + b) == Filter(a) + Filter(b)
    decreases |a|
  {
    if a == [] {
      assert a + b == b;
    } else {
      var w := Width(a[0]);
      assert w <= |a| by {
        if |a| < 2 { assert a[|a| - 1] == a[0]; }
      }
      assert (a + b)[0] == a[0];
      assert (a + b)[w..] == a[w..] + b;
      FilterHead(a + b);
      FilterHead(a);
      FilterAppend(a[w..], b);
      Sequences.AppendAssoc(Kept(a[0]), Filter(a[w..]), Filter(b));
    }
  }

  /** Filtering splits at any boundary that does not separate a flag from its argument. */
  lemma FilterSplits(xs: seq<string>, i: nat)
    requires i <= |xs| && CleanBoundary(xs, i)
    ensures Filter(xs) == Filter(xs[..i]) + Filter(xs[i..])
  {
    var pre, post := xs[..i], xs[i..];
    assert xs == pre + post;
    assert i > 0 ==> pre[i - 1] == xs[i - 1];
    FilterAppend(pre, post);
  }

  /**
   An argument that is not a removed flag and does not follow a flag awaiting its
   argument is kept, in its place.
   */
  lemma ArgumentKept(xs: seq<string>, i: nat)
    requires i < |xs| && CleanBoundary(xs, i) && !Removed(xs[i])
    ensures Filter(xs) == Filter(xs[..i]) + ([xs[i]] + Filter(xs[i + 1..]))
  {
    FilterSplits(xs, i);
    KeptHead(xs[i..]);
    assert xs[i..][1..] == xs[i + 1..];
  }

  lemma KeptHead(ys: seq<string>)
    requires |ys| > 0 && !Removed(ys[0])
    ensures Filter(ys) == [ys[0]] + Filter(ys[1..])
  {
  }

  /**
   `-o`, `-c` or `-arch` removes itself and the next argument, whatever that is, provided
   the argument before it is not itself such a flag waiting for its argument.
   */
  lemma FlagAndArgumentDropped(xs: seq<string>, i: nat)
    requires i + 1 < |xs| && CleanBoundary(xs, i) && TakesArgument(xs[i])
    ensures Filter(xs) == Filter(xs[..i]) + Filter(xs[i + 2..])
  {
    FilterSplits(xs, i);
    var ys := xs[i..];
    assert ys[0] == xs[i] && ys[2..] == xs[i + 2..];
    assert Filter(ys) == Filter(xs[i + 2..]);
  }

  /**
   A flag that follows a flag taking an argument is consumed as that argument and removes
   nothing after it: `-o -c x` keeps `x`.
   */
  lemma FlagConsumedAsArgument(a: string, f: string, rest: seq<string>)
    requires TakesArgument(a) && TakesArgument(f)
    ensures Filter([a, f] + rest) == Filter(rest)
  {
    assert ([a, f] + rest)[1..][1..] == rest;
  }

  /** What is still to come: the rest of the input, its first element skipped if a flag is waiting. */
  function Pending(ys: seq<string>, skipNext: bool): seq<string> {
    if skipNext then (if |ys| == 0 then [] else Filter(ys[1..])) else Filter(ys)
  }

  /** One step of the loop: what remains after looking at the first pending argument. */
  lemma PendingStep(ys: seq<string>, skipNext: bool)
    requires |ys| > 0
    ensures Pending(ys, skipNext)
         == if skipNext then Pending(ys[1..], false)
            else if TakesArgument(ys[0]) then Pending(ys[1..], true)
            else if DroppedAlone(ys[0]) then Pending(ys[1..], false)
            else [ys[0]] + Pending(ys[1..], false)
  {
  }

  /** `-arch` is compared last in the loop; no earlier prefix comparison can catch it. */
  lemma ArchNotPrefixed(a: string)
    requires StartsWith(a, "-o") || StartsWith(a, "--driver-mode")
    ensures a != "-arch"
  {
    assert a[1] == 'o' || a[1] == '-';
  }

  /** The filtering loop of `get_compile_args`, over `cmd_args[1:]`. */
  method FilterCompileArgs(cmdArgs: seq<string>) returns (filtered: seq<string>)
    ensures cmdArgs == [] ==> filtered == []
    ensures cmdArgs != [] ==> filtered == Filter(cmdArgs[1..])
  {
    var args := if |cmdArgs| > 0 then cmdArgs[1..] else [];
    filtered := [];
    var skipNext := false;
    for i := 0 to |args|
      invariant filtered + Pending(args[i..], skipNext) == Filter(args)
    {
      var arg := args[i];
      PendingStep(args[i..], skipNext);
      assert args[i..][0] == arg && args[i..][1..] == args[i + 1..];
      if skipNext {
        skipNext := false;
      } else if arg == "-o" || arg == "-c" {
        skipNext := true;
      } else if StartsWith(arg, "-o") || StartsWith(arg, "--driver-mode") {
        ArchNotPrefixed(arg);
      } else if arg == "-arch" {
        skipNext := true;
      } else {
        Sequences.AppendAssoc(filtered, [arg], Pending(args[i + 1..], false));
        filtered := filtered + [arg];
      }
    }
  }

  /**
   All the argument lists of the matching commands, one after the other. The first
   command's arguments come first, so `cmd_args[1:]` skips that command's compiler.
   */
  function Concat(commands: seq<seq<string>>): (r: seq<string>)
    ensures commands != [] ==> commands[0] <= r
  {
    if |commands| == 0 then [] else commands[0] + Concat(commands[1..])
  }

  /** One more pass of the `cmd_args.extend(cmd.arguments)` loop appends that command's arguments. */
  lemma {:induction false} ConcatSnoc(commands: seq<seq<string>>, c: seq<string>)
    ensures Concat(commands + [c]) == Concat(commands) + c
    decreases |commands|
  {
    if commands == [] {
      assert commands + [c] == [c];
    } else {
      assert (commands + [c])[1..] == commands[1..] + [c];
      ConcatSnoc(commands[1..], c);
      Sequences.AppendAssoc(commands[0], Concat(commands[1..]), c);
    }
  }

  /**
   `get_compile_args`: an error when the database has no command for the file,
   otherwise the filtered arguments.
   */
  method GetCompileArgs(commands: seq<seq<string>>, filename: string)
    returns (r: Result<seq<string>, string>)
    ensures r.Failure? <==> commands == []
    ensures r.Success? ==> Subsequence(r.value, Concat(commands))
    ensures r.Success? ==> forall k :: 0 <= k < |r.value| ==> !Removed(r.value[k])
    ensures r.Success? && Concat(commands) != [] ==> r.value == Filter(Concat(commands)[1..])
  {
    if |commands| == 0 {
      return Failure("No compilation commands found for " + filename + " in database");
    }
    var cmdArgs := Concat(commands);
    var filtered := FilterCompileArgs(cmdArgs);
    if cmdArgs != [] {
      FilterDropsFlags(cmdArgs[1..]);
      FilterIsSubsequence(cmdArgs[1..]);
      SubsequenceOfTail(filtered, cmdArgs);
    }
    return Success(filtered);
  }
}
