/** Slash-separated object paths as the backup code builds them with
    `path.Join` from clean components, and the prefix relation the remote
    listing uses. */
module Paths {

  /** `path.Join(a, b)` for clean, non-empty components: the two joined by a
      single slash. */
  function Join(a: string, b: string): string {
    a + "/" + b
  }

  /** The directory prefix `a + "/"`: every path joined under `a` starts
      with it. */
  function DirPrefix(a: string): string {
    a + "/"
  }

  /** Whether `s` starts with `prefix`. */
  predicate HasPrefix(s: string, prefix: string) {
    prefix <= s
  }

  /** The part of `s` after `prefix`. */
  function Rel(s: string, prefix: string): (r: string)
    requires HasPrefix(s, prefix)
    ensures prefix + r == s
  {
    s[|prefix|..]
  }

  /** Joining under `a` is the same as appending to `a`'s directory prefix,
      and the joined path lies under that prefix with `b` as the rest. */
  lemma JoinUnder(a: string, b: string)
    ensures Join(a, b) == DirPrefix(a) + b
    ensures HasPrefix(Join(a, b), DirPrefix(a))
    ensures Rel(Join(a, b), DirPrefix(a)) == b
  {
    assert Join(a, b)[..|DirPrefix(a)|] == DirPrefix(a);
  }

  /** Under a fixed directory, joining is injective in the last component. */
  lemma JoinInjective(a: string, b: string, c: string)
    requires Join(a, b) == Join(a, c)
    ensures b == c
  {
    JoinUnder(a, b);
    JoinUnder(a, c);
  }

  /** Appending to a prefix and taking the rest back gives the appended part. */
  lemma RelOfAppend(prefix: string, r: string)
    ensures HasPrefix(prefix + r, prefix)
    ensures Rel(prefix + r, prefix) == r
  {
    assert (prefix + r)[..|prefix|] == prefix;
  }
}
