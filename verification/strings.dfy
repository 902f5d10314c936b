/** String helpers used by the naming and resolution code: Go's
    `strings.ReplaceAll(s, "/", "_")`, `strings.HasPrefix` and the byte-wise
    ordering of strings used by `sort.Slice` on names. */
module Strings {

  /** `strings.HasPrefix(s, p)`. */
  predicate HasPrefix(s: string, p: string) {
    |p| <= |s| && s[..|p|] == p
  }

  /** Some element of `prefixes` is a prefix of `s` (the loop over a prefix list). */
  function HasAnyPrefix(prefixes: seq<string>, s: string): (r: bool)
    ensures r <==> exists i :: 0 <= i < |prefixes| && HasPrefix(s, prefixes[i])
  {
    if prefixes == [] then false
    else HasPrefix(s, prefixes[0]) || HasAnyPrefix(prefixes[1..], s)
  }

  /** `strings.ReplaceAll(s, "/", "_")`: every path separator becomes an
      underscore, every other character stays where it is. */
  function Flatten(s: string): (r: string)
    ensures |r| == |s|
    ensures '/' !in r
    ensures forall i :: 0 <= i < |s| && s[i] != '/' ==> r[i] == s[i]
    ensures forall i :: 0 <= i < |s| && s[i] == '/' ==> r[i] == '_'
  {
    seq(|s|, i requires 0 <= i < |s| => if s[i] == '/' then '_' else s[i])
  }

  /** A string without separators is already flat. */
  lemma FlattenFixesSlashFree(s: string)
    requires '/' !in s
    ensures Flatten(s) == s
  {
  }

  lemma FlattenIdempotent(s: string)
    ensures Flatten(Flatten(s)) == Flatten(s)
  {
    FlattenFixesSlashFree(Flatten(s));
  }

  lemma FlattenConcat(a: string, b: string)
    ensures Flatten(a + b) == Flatten(a) + Flatten(b)
  {
  }

  /** `a <= b` in Go's string order. Go compares the UTF-8 bytes; for code points
      that order coincides with comparing characters one by one, which is what
      this does. */
  predicate Below(a: string, b: string)
  {
    a == [] || (b != [] && (a[0] < b[0] || (a[0] == b[0] && Below(a[1..], b[1..]))))
  }

  lemma {:induction false} BelowReflexive(a: string)
    ensures Below(a, a)
  {
    if a != [] {
      BelowReflexive(a[1..]);
    }
  }

  lemma {:induction false} BelowTotal(a: string, b: string)
    ensures Below(a, b) || Below(b, a)
  {
    if a != [] && b != [] && a[0] == b[0] {
      BelowTotal(a[1..], b[1..]);
    }
  }

  lemma {:induction false} BelowTransitive(a: string, b: string, c: string)
    requires Below(a, b) && Below(b, c)
    ensures Below(a, c)
  {
    if a != [] && a[0] == b[0] && b[0] == c[0] {
      BelowTransitive(a[1..], b[1..], c[1..]);
    }
  }

  lemma {:induction false} BelowAntisymmetric(a: string, b: string)
    requires Below(a, b) && Below(b, a)
    ensures a == b
  {
    if a != [] {
      BelowAntisymmetric(a[1..], b[1..]);
      assert a == [a[0]] + a[1..] && b == [b[0]] + b[1..];
    }
  }
}
