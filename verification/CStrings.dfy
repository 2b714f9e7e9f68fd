/** C strings, compared the way the library compares keys. Strings are sequences of non-zero characters, a character
    standing for one byte. The terminating zero is not part of the sequence: reading one past the end yields it. */
module CStrings {
  ghost predicate NulFree(s: string) {
    '\0' !in s
  }

  /** tolower in the "C" locale. */
  function Lower(c: char): char {
    if 'A' <= c <= 'Z' then (c as int + 32) as char else c
  }

  function Fold(c: char, caseSensitive: bool): char {
    if caseSensitive then c else Lower(c)
  }

  function FoldAll(s: string, caseSensitive: bool): (r: string)
    ensures |r| == |s|
    ensures forall i :: 0 <= i < |s| ==> r[i] == Fold(s[i], caseSensitive)
  {
    if s == [] then [] else [Fold(s[0], caseSensitive)] + FoldAll(s[1..], caseSensitive)
  }

  /** The byte read at offset i, the terminator included. */
  function At(s: string, i: nat): char
    requires i <= |s|
  {
    if i < |s| then s[i] else '\0'
  }

  /** Result of comparing two strings from their first characters on: the difference of the first
      two bytes that differ (after folding), zero when both strings end together. */
  function Compare(a: string, b: string, caseSensitive: bool): int {
    var x := Fold(At(a, 0), caseSensitive);
    var y := Fold(At(b, 0), caseSensitive);
    if x != y || a == [] || b == [] then x as int - y as int
    else Compare(a[1..], b[1..], caseSensitive)
  }

  /** The comparison loop, with both pointers moving together. */
  method CompareStrings(a: string, b: string, caseSensitive: bool) returns (r: int)
    requires NulFree(a) && NulFree(b)
    ensures r == Compare(a, b, caseSensitive)
  {
    var i := 0;
    while Fold(At(a, i), caseSensitive) == Fold(At(b, i), caseSensitive)
      invariant i <= |a| && i <= |b|
      invariant Compare(a, b, caseSensitive) == Compare(a[i..], b[i..], caseSensitive)
      decreases |a| - i
    {
      if At(a, i) == '\0' {
        assert i == |a| && i == |b|;
        return 0;
      }
      assert i < |a| && i < |b|;
      assert a[i..][1..] == a[i + 1..] && b[i..][1..] == b[i + 1..];
      i := i + 1;
    }
    assert At(a[i..], 0) == At(a, i) && At(b[i..], 0) == At(b, i);
    return Fold(At(a, i), caseSensitive) as int - Fold(At(b, i), caseSensitive) as int;
  }

  /** Comparing is zero exactly on strings that are equal after folding. */
  lemma {:induction false} CompareZero(a: string, b: string, caseSensitive: bool)
    requires NulFree(a) && NulFree(b)
    ensures Compare(a, b, caseSensitive) == 0 <==> FoldAll(a, caseSensitive) == FoldAll(b, caseSensitive)
  {
    if a != [] && b != [] {
      CompareZero(a[1..], b[1..], caseSensitive);
      var fa, fb := FoldAll(a, caseSensitive), FoldAll(b, caseSensitive);
      assert fa == fb ==> fa[0] == fb[0] && fa[1..] == fb[1..];
    }
  }

  lemma {:induction false} CompareAntisymmetric(a: string, b: string, caseSensitive: bool)
    ensures Compare(a, b, caseSensitive) == -Compare(b, a, caseSensitive)
  {
    if a != [] && b != [] {
      CompareAntisymmetric(a[1..], b[1..], caseSensitive);
    }
  }

  /** The order is transitive, strictly so when either step is strict. */
  lemma {:induction false} CompareTransitive(a: string, b: string, c: string, caseSensitive: bool)
    requires NulFree(a) && NulFree(b) && NulFree(c)
    requires Compare(a, b, caseSensitive) <= 0 && Compare(b, c, caseSensitive) <= 0
    ensures Compare(a, c, caseSensitive) <= 0
    ensures Compare(a, b, caseSensitive) < 0 || Compare(b, c, caseSensitive) < 0 ==> Compare(a, c, caseSensitive) < 0
  {
    if a != [] && b != [] && c != [] {
      if Fold(a[0], caseSensitive) == Fold(b[0], caseSensitive) == Fold(c[0], caseSensitive) {
        CompareTransitive(a[1..], b[1..], c[1..], caseSensitive);
      }
    }
  }

  /** A key that reads the same under every comparison and needs no pointer escape. */
  ghost predicate Plain(s: string) {
    forall i :: 0 <= i < |s| ==> PlainChar(s[i])
  }

  ghost predicate PlainChar(c: char) {
    c != '\0' && c != '~' && c != '/' && !('A' <= c <= 'Z')
  }

  /** On plain keys the case flag does not matter and zero means equal. */
  lemma {:induction false} ComparePlain(a: string, b: string, caseSensitive: bool)
    requires Plain(a) && Plain(b)
    ensures Compare(a, b, caseSensitive) == Compare(a, b, true)
    ensures Compare(a, b, caseSensitive) == 0 <==> a == b
  {
    if a != [] && b != [] {
      ComparePlain(a[1..], b[1..], caseSensitive);
      assert a == [a[0]] + a[1..] && b == [b[0]] + b[1..];
    }
  }
}
