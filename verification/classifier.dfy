/**
 The allowlist test `is_allowed_auto_type`: a canonical type spelling is a safe
 target for `auto` only when it names plain Eigen storage, `Eigen::Matrix<...>` or
 `Eigen::Array<...>`, possibly behind one leading `const ` and followed by `&`, `*`
 and spaces. Every other spelling is refused, so the test fails closed.
 */
module Classifier {
  import opened Text

  const ConstPrefix := "const "
  const MatrixPrefix := "Eigen::Matrix<"
  const ArrayPrefix := "Eigen::Array<"

  /** The characters `rstrip("&* ")` removes from the end of the spelling. */
  const Sigils: set<char> := {'&', '*', ' '}

  /** The spelling the allowlist is applied to: one leading `const ` and all trailing sigils gone. */
  function Normalize(canonical: string): (t: string)
    ensures t == [] || t[|t| - 1] !in Sigils
  {
    RStrip(RemovePrefix(canonical, ConstPrefix), Sigils)
  }

  predicate IsStoragePrefixed(s: string) {
    StartsWith(s, MatrixPrefix) || StartsWith(s, ArrayPrefix)
  }

  /** `is_allowed_auto_type` */
  predicate IsAllowedAutoType(canonical: string) {
    IsStoragePrefixed(Normalize(canonical))
  }

  /**
   The trailing-sigil strip never decides anything: a spelling is allowed exactly
   when, after dropping one leading `const `, it begins with one of the two
   storage prefixes. Both prefixes end in `<`, which the strip does not remove.
   */
  lemma AllowedIff(canonical: string)
    ensures IsAllowedAutoType(canonical)
        <==> IsStoragePrefixed(RemovePrefix(canonical, ConstPrefix))
  {
    var t := RemovePrefix(canonical, ConstPrefix);
    StartsWithAfterRStrip(t, MatrixPrefix, Sigils);
    StartsWithAfterRStrip(t, ArrayPrefix, Sigils);
  }

  /** A spelling that is not under `Eigen::` (even after one `const `) is never allowed. */
  lemma {:induction false} OutsideNamespaceNotAllowed(canonical: string)
    requires !StartsWith(RemovePrefix(canonical, ConstPrefix), "Eigen::")
    ensures !IsAllowedAutoType(canonical)
  {
    var t := RemovePrefix(canonical, ConstPrefix);
    AllowedIff(canonical);
    StartsWithTransitive(t, MatrixPrefix, "Eigen::");
    StartsWithTransitive(t, ArrayPrefix, "Eigen::");
  }

  /**
   Appending `&`, `*` and spaces never changes the decision: `T`, `T &`, `T *`,
   `T *&` and so on are allowed exactly when `T` is.
   */
  lemma {:induction false} SigilSuffixIrrelevant(canonical: string, tail: string)
    requires AllIn(tail, Sigils)
    ensures IsAllowedAutoType(canonical + tail) <==> IsAllowedAutoType(canonical)
  {
    var s := canonical + tail;
    if StartsWith(canonical, ConstPrefix) {
      assert s[..|ConstPrefix|] == canonical[..|ConstPrefix|];
      assert RemovePrefix(s, ConstPrefix) == RemovePrefix(canonical, ConstPrefix) + tail;
      RStripIgnoresSuffix(RemovePrefix(canonical, ConstPrefix), tail, Sigils);
    } else if !StartsWith(s, ConstPrefix) {
      RStripIgnoresSuffix(canonical, tail, Sigils);
    } else {
      // `canonical` is a proper prefix of "const ", so it is too short for either storage
      // prefix, and what follows "const " in `s` is made of sigils only.
      assert |canonical| < |ConstPrefix|;
      var rest := RemovePrefix(s, ConstPrefix);
      assert rest == tail[|ConstPrefix| - |canonical|..];
      assert AllIn(rest, Sigils);
      RStripIgnoresSuffix([], rest, Sigils);
      assert [] + rest == rest;
      assert Normalize(s) == [];
      assert Normalize(canonical) == RStrip(canonical, Sigils);
    }
  }
}
