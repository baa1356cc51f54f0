/** Small shared vocabulary: an optional value and the string prefix test used by
    `String.prototype.startsWith`. */
module Base {

  /** A value that may be absent (`T | null` / `T | undefined` in the TypeScript code). */
  datatype Option<+T> = None | Some(value: T)

  /** `s.startsWith(prefix)`: `prefix` is an initial segment of `s`. */
  predicate StartsWith(s: string, prefix: string) {
    |prefix| <= |s| && s[..|prefix|] == prefix
  }

  function Min(a: int, b: int): (m: int)
    ensures m <= a && m <= b && (m == a || m == b)
  {
    if a <= b then a else b
  }

  /** Two prefixes of the same string are comparable: the shorter one is a prefix
      of the longer one. */
  lemma PrefixesOfSameString(s: string, p: string, q: string)
    requires StartsWith(s, p) && StartsWith(s, q) && |p| <= |q|
    ensures StartsWith(q, p)
  {
    assert q[..|p|] == s[..|q|][..|p|] == s[..|p|];
  }
}
