/**
 * The three string operations the mapper relies on: `String.replace(' ', '.')`,
 * `String.trim()` and `StringUtils.isEmpty`.
 */
module JavaStrings {
  import opened LdapTypes

  /** `s.replace(' ', '.')`: every space becomes a dot, nothing else moves. */
  function ReplaceSpaces(s: string): (r: string)
    ensures |r| == |s|
    ensures forall k | 0 <= k < |s| :: r[k] == (if s[k] == ' ' then '.' else s[k])
    ensures ' ' !in r
  {
    if s == [] then [] else [if s[0] == ' ' then '.' else s[0]] + ReplaceSpaces(s[1..])
  }

  /** Java's `trim` treats every character up to U+0020 as white space. */
  predicate IsTrimmable(c: char) {
    c <= ' '
  }

  /** The index of the first character `trim` keeps (|s| when it keeps none). */
  function TrimStart(s: string): (i: nat)
    ensures i <= |s|
    ensures forall k | 0 <= k < i :: IsTrimmable(s[k])
    ensures i < |s| ==> !IsTrimmable(s[i])
  {
    if s == [] || !IsTrimmable(s[0]) then 0 else 1 + TrimStart(s[1..])
  }

  /** One past the index of the last character `trim` keeps (0 when it keeps none). */
  function TrimEnd(s: string): (j: nat)
    ensures j <= |s|
    ensures forall k | j <= k < |s| :: IsTrimmable(s[k])
    ensures 0 < j ==> !IsTrimmable(s[j - 1])
  {
    if s == [] || !IsTrimmable(s[|s| - 1]) then |s| else TrimEnd(s[..|s| - 1])
  }

  /** `r` sits at index `i` of `s` with only white space before and after it. */
  predicate FactorAt(s: string, i: nat, r: string) {
    i + |r| <= |s| && s[i..i + |r|] == r &&
    (forall k | 0 <= k < i :: IsTrimmable(s[k])) &&
    (forall k | i + |r| <= k < |s| :: IsTrimmable(s[k]))
  }

  /** `s.trim()`: drops white space at both ends only. */
  function Trim(s: string): (r: string)
    ensures |r| <= |s|
  {
    var i, j := TrimStart(s), TrimEnd(s);
    if j <= i then [] else s[i..j]
  }

  /**
   * `Trim` is Java's `trim`: the longest factor of `s` that neither starts nor
   * ends with white space, obtained by dropping white space at both ends only;
   * it is empty exactly when `s` is all white space.
   */
  lemma TrimIsJavaTrim(s: string)
    ensures var r := Trim(s);
            && (r == [] <==> forall k | 0 <= k < |s| :: IsTrimmable(s[k]))
            && (r != [] ==> !IsTrimmable(r[0]) && !IsTrimmable(r[|r| - 1]))
            && exists i: nat :: FactorAt(s, i, r)
  {
    var i, j := TrimStart(s), TrimEnd(s);
    if j <= i {
      forall k | 0 <= k < |s| ensures IsTrimmable(s[k]) {
        if i <= k { assert j <= k; }
      }
      assert FactorAt(s, 0, []);
    } else {
      assert FactorAt(s, i, s[i..j]);
    }
  }

  /** `StringUtils.isEmpty`: null or the empty string. */
  function IsEmpty(s: Option<string>): bool {
    s.None? || s.value == ""
  }
}
