/**
 The string operations the checker borrows from Python's `str`: prefix tests,
 `removeprefix`, `rstrip(chars)`, `lstrip(chars)`, `strip()` and `" ".join`.
 Each is given an independent characterisation in its contract.
 */
module Text {
  import Sequences

  /** `s.startswith(p)` */
  predicate StartsWith(s: string, p: string) {
    |p| <= |s| && s[..|p|] == p
  }

  lemma StartsWithAppend(p: string, x: string)
    ensures StartsWith(p + x, p)
  {
    assert (p + x)[..|p|] == p;
  }

  /** A prefix of a prefix is a prefix. */
  lemma StartsWithTransitive(s: string, p: string, q: string)
    requires StartsWith(p, q)
    ensures StartsWith(s, p) ==> StartsWith(s, q)
  {
    assert StartsWith(s, p) ==> s[..|q|] == s[..|p|][..|q|];
  }

  /** Two prefixes that differ in their first character cannot both begin `s`. */
  lemma StartsWithExcludes(s: string, p: string, q: string)
    requires p != [] && q != [] && p[0] != q[0]
    ensures StartsWith(s, p) ==> !StartsWith(s, q)
  {
    assert StartsWith(s, p) ==> s[..|p|][0] == s[0];
    assert StartsWith(s, q) ==> s[..|q|][0] == s[0];
  }

  /** `s.removeprefix(p)`: drops `p` once when `s` begins with it. */
  function RemovePrefix(s: string, p: string): (r: string)
    ensures StartsWith(s, p) ==> p + r == s
    ensures !StartsWith(s, p) ==> r == s
  {
    if StartsWith(s, p) then s[|p|..] else s
  }

  lemma RemovePrefixOfAppend(p: string, x: string)
    ensures RemovePrefix(p + x, p) == x
  {
    StartsWithAppend(p, x);
  }

  /** Every character of `s` is in `cs`. */
  predicate AllIn(s: string, cs: set<char>) {
    forall i :: 0 <= i < |s| ==> s[i] in cs
  }

  /** `s.rstrip(chars)`: the longest prefix of `s` that does not end in a character of `cs`. */
  function RStrip(s: string, cs: set<char>): (r: string)
    ensures |r| <= |s| && r == s[..|r|]
    ensures AllIn(s[|r|..], cs)
    ensures r == [] || r[|r| - 1] !in cs
    decreases |s|
  {
    if |s| > 0 && s[|s| - 1] in cs then RStrip(s[..|s| - 1], cs) else s
  }

  /** `s.lstrip(chars)`: the longest suffix of `s` that does not begin with a character of `cs`. */
  function LStrip(s: string, cs: set<char>): (r: string)
    ensures |r| <= |s| && r == s[|s| - |r|..]
    ensures AllIn(s[..|s| - |r|], cs)
    ensures r == [] || r[0] !in cs
    decreases |s|
  {
    if |s| > 0 && s[0] in cs then LStrip(s[1..], cs) else s
  }

  /** The characters Python's `str.isspace()` accepts, which `strip()` without arguments removes. */
  const Whitespace: set<char> := {
    '\t', '\n', '\U{0B}', '\U{0C}', '\r', '\U{1C}', '\U{1D}', '\U{1E}', '\U{1F}', ' ',
    '\U{85}', '\U{A0}', '\U{1680}',
    '\U{2000}', '\U{2001}', '\U{2002}', '\U{2003}', '\U{2004}', '\U{2005}',
    '\U{2006}', '\U{2007}', '\U{2008}', '\U{2009}', '\U{200A}',
    '\U{2028}', '\U{2029}', '\U{202F}', '\U{205F}', '\U{3000}'
  }

  /** Neither end of `s` is whitespace. */
  predicate Trimmed(s: string) {
    s == [] || (s[0] !in Whitespace && s[|s| - 1] !in Whitespace)
  }

  /** `s.strip()`: `s` with leading and trailing whitespace removed. */
  function Strip(s: string): (r: string)
    ensures Trimmed(r)
    ensures exists i, j :: 0 <= i <= j <= |s| && r == s[i..j]
                         && AllIn(s[..i], Whitespace) && AllIn(s[j..], Whitespace)
  {
    var t := RStrip(s, Whitespace);
    var r := LStrip(t, Whitespace);
    assert r == s[|t| - |r|..|t|];
    assert s[..|t| - |r|] == t[..|t| - |r|];
    r
  }

  /** `sep.join(parts)` */
  function Join(sep: string, parts: seq<string>): (r: string)
  {
    if |parts| == 0 then ""
    else if |parts| == 1 then parts[0]
    else parts[0] + sep + Join(sep, parts[1..])
  }

  /** Joining one more part appends the separator and the part, unless nothing came before. */
  lemma {:induction false} JoinSnoc(sep: string, parts: seq<string>, t: string)
    ensures Join(sep, parts + [t]) == if |parts| == 0 then t else Join(sep, parts) + sep + t
    decreases |parts|
  {
    if |parts| > 1 {
      var x, r := parts[0] + sep, Join(sep, parts[1..]);
      assert (parts + [t])[1..] == parts[1..] + [t];
      calc {
        Join(sep, parts + [t]);
        x + Join(sep, parts[1..] + [t]);
        { JoinSnoc(sep, parts[1..], t); }
        x + ((r + sep) + t);
        { Sequences.AppendAssoc(x, r + sep, t); }
        (x + (r + sep)) + t;
        { Sequences.AppendAssoc(x, r, sep); }
        ((x + r) + sep) + t;
      }
    }
  }

  /** Joining trimmed, non-empty parts with a single space yields a trimmed string. */
  lemma {:induction false} JoinTrimmed(parts: seq<string>)
    requires forall k :: 0 <= k < |parts| ==> parts[k] != [] && Trimmed(parts[k])
    ensures Trimmed(Join(" ", parts))
    ensures |parts| > 0 ==> Join(" ", parts) != []
    decreases |parts|
  {
    if |parts| > 1 {
      JoinTrimmed(parts[1..]);
      var rest := Join(" ", parts[1..]);
      var r := parts[0] + " " + rest;
      assert r[0] == parts[0][0];
      assert r[|r| - 1] == rest[|rest| - 1];
    }
  }

  /** Stripping trailing characters of `cs` ignores any tail made only of `cs`. */
  lemma {:induction false} RStripIgnoresSuffix(s: string, tail: string, cs: set<char>)
    requires AllIn(tail, cs)
    ensures RStrip(s + tail, cs) == RStrip(s, cs)
    decreases |tail|
  {
    if |tail| > 0 {
      var shorter := tail[..|tail| - 1];
      assert (s + tail)[..|s + tail| - 1] == s + shorter;
      RStripIgnoresSuffix(s, shorter, cs);
    } else {
      assert s + tail == s;
    }
  }

  /** Stripping leading characters of `cs` ignores any head made only of `cs`. */
  lemma {:induction false} LStripIgnoresPrefix(head: string, s: string, cs: set<char>)
    requires AllIn(head, cs)
    ensures LStrip(head + s, cs) == LStrip(s, cs)
    decreases |head|
  {
    if |head| > 0 {
      assert (head + s)[1..] == head[1..] + s;
      LStripIgnoresPrefix(head[1..], s, cs);
    } else {
      assert head + s == s;
    }
  }

  /** Removing trailing whitespace before `strip()` changes nothing. */
  lemma StripAfterRStrip(s: string)
    ensures Strip(RStrip(s, Whitespace)) == Strip(s)
  {
    var t := RStrip(s, Whitespace);
    assert s == t + s[|t|..];
    RStripIgnoresSuffix(t, s[|t|..], Whitespace);
    RStripIsIdempotent(t, Whitespace);
  }

  /** Stripping twice is stripping once. */
  lemma RStripIsIdempotent(s: string, cs: set<char>)
    ensures RStrip(RStrip(s, cs), cs) == RStrip(s, cs)
  {
  }

  /** A prefix test survives `rstrip` when the prefix's last character is not stripped. */
  lemma StartsWithAfterRStrip(s: string, p: string, cs: set<char>)
    requires p != [] && p[|p| - 1] !in cs
    ensures StartsWith(RStrip(s, cs), p) <==> StartsWith(s, p)
  {
  }
}
